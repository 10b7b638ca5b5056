/** JSON to protobuf messages (src/bridge/grpc.rs), directed by a schema. */
module GrpcJson {
  import opened Wrappers

  /** One for each error text. */
  datatype Error =
    | ExpectedMessageObject | ExpectedArray | ExpectedMapObject | InvalidMapEntry | InvalidMapField
    | ExpectedDouble | ExpectedFloat | ExpectedInt32 | ExpectedInt64 | ExpectedUint32 | ExpectedUint64 | ExpectedBool | ExpectedString
    | ExpectedBase64 | InvalidBase64 | UnknownEnumValue | ExpectedEnum

  // ---------------------------------------------------------------- JSON, schemas, values

  /** What serde_json keeps as an integer: an i64 or a u64. */
  type JsonInt = n: int | -0x8000_0000_0000_0000 <= n < 0x1_0000_0000_0000_0000

  datatype Json =
    | Null
    | Boolean(flag: bool)
    | Integer(n: JsonInt)
    | Fraction(x: real)
    | Text(text: string)
    | Array(items: seq<Json>)
    | Object(members: seq<Member>)

  datatype Member = Member(key: string, value: Json)

  datatype Kind =
    | Double | Float
    | Int32 | Sint32 | Sfixed32 | Int64 | Sint64 | Sfixed64
    | Uint32 | Fixed32 | Uint64 | Fixed64
    | Bool | String | Bytes
    | Enum(enumName: string) | Message(messageName: string)

  datatype Cardinality = Singular | List | MapField

  /** `oneof` names the group a field shares with its alternatives. */
  datatype Field = Field(cardinality: Cardinality, kind: Kind, oneof: Option<string>)

  /** A descriptor pool; messages may mention each other and themselves. */
  datatype Schema = Schema(
    messages: map<string, map<string, Field>>,
    enums: map<string, map<string, int>>,
    base64: string -> Option<seq<bv8>>)

  datatype MapKey = BoolKey(b: bool) | I32Key(i: int) | I64Key(l: int) | U32Key(u: int) | U64Key(w: int) | StringKey(s: string)

  datatype Value =
    | F64(x: real) | F32(y: real)
    | I32(i: int) | I64(l: int) | U32(u: int) | U64(w: int)
    | Flag(b: bool) | Str(s: string) | Blob(bytes: seq<bv8>)
    | EnumNumber(number: int)
    | Record(name: string, fields: map<string, Value>)
    | Items(items: seq<Value>)
    | Entries(entries: map<MapKey, Value>)

  function FieldsOf(schema: Schema, name: string): map<string, Field> {
    if name in schema.messages then schema.messages[name] else map[]
  }

  function NumbersOf(schema: Schema, name: string): map<string, int> {
    if name in schema.enums then schema.enums[name] else map[]
  }

  // ---------------------------------------------------------------- leaves

  const TWO31 := 0x8000_0000
  const TWO32 := 0x1_0000_0000
  const TWO63 := 0x8000_0000_0000_0000
  const TWO64 := 0x1_0000_0000_0000_0000

  /** `as i32` on an i64. */
  function AsI32(n: int): int {
    (n + TWO31) % TWO32 - TWO31
  }

  /** `as u32` on a u64. */
  function AsU32(n: int): int {
    n % TWO32
  }

  function Number(json: Json, error: Error): Result<real, Error> {
    match json
    case Integer(n) => Ok(n as real)
    case Fraction(x) => Ok(x)
    case _ => Err(error)
  }

  function Signed(json: Json, error: Error): Result<int, Error> {
    if json.Integer? && json.n < TWO63 then Ok(json.n) else Err(error)
  }

  function Unsigned(json: Json, error: Error): Result<int, Error> {
    if json.Integer? && json.n >= 0 then Ok(json.n) else Err(error)
  }

  function MapResult<A, B>(r: Result<A, Error>, f: A -> B): Result<B, Error> {
    if r.Ok? then Ok(f(r.value)) else Err(r.error)
  }

  /** A value of any kind but a message. */
  function Leaf(schema: Schema, kind: Kind, json: Json): Result<Value, Error>
    requires !kind.Message?
  {
    match kind
    case Double => MapResult(Number(json, ExpectedDouble), x => F64(x))
    case Float => MapResult(Number(json, ExpectedFloat), x => F32(x))
    case Int32 | Sint32 | Sfixed32 => MapResult(Signed(json, ExpectedInt32), n => I32(AsI32(n)))
    case Int64 | Sint64 | Sfixed64 => MapResult(Signed(json, ExpectedInt64), n => I64(n))
    case Uint32 | Fixed32 => MapResult(Unsigned(json, ExpectedUint32), n => U32(AsU32(n)))
    case Uint64 | Fixed64 => MapResult(Unsigned(json, ExpectedUint64), n => U64(n))
    case Bool => if json.Boolean? then Ok(Flag(json.flag)) else Err(ExpectedBool)
    case String => if json.Text? then Ok(Str(json.text)) else Err(ExpectedString)
    case Bytes =>
      if !json.Text? then Err(ExpectedBase64)
      else if schema.base64(json.text).None? then Err(InvalidBase64)
      else Ok(Blob(schema.base64(json.text).value))
    case Enum(name) =>
      if json.Text? then
        if json.text in NumbersOf(schema, name) then Ok(EnumNumber(NumbersOf(schema, name)[json.text])) else Err(UnknownEnumValue)
      else if Signed(json, ExpectedEnum).Ok? then Ok(EnumNumber(AsI32(Signed(json, ExpectedEnum).value)))
      else Err(ExpectedEnum)
  }

  /** A map key comes from the JSON key, always as a string. */
  function KeyValue(schema: Schema, kind: Kind, key: string): Result<Value, Error> {
    if kind.Message? then Err(ExpectedMessageObject) else Leaf(schema, kind, Text(key))
  }

  /** Values that cannot be a key are dropped with their entry. */
  function AddEntry(entries: map<MapKey, Value>, key: Value, value: Value): map<MapKey, Value> {
    match key
    case Str(s) => entries[StringKey(s) := value]
    case I32(i) => entries[I32Key(i) := value]
    case I64(l) => entries[I64Key(l) := value]
    case U32(u) => entries[U32Key(u) := value]
    case U64(w) => entries[U64Key(w) := value]
    case Flag(b) => entries[BoolKey(b) := value]
    case _ => entries
  }

  predicate Rivals(a: Field, b: Field) {
    a.oneof.Some? && a.oneof == b.oneof
  }

  /** Setting a field clears the other members of its oneof. */
  function SetField(declared: map<string, Field>, fields: map<string, Value>, key: string, value: Value): map<string, Value>
    requires key in declared
  {
    (map k | k in fields && !(k in declared && Rivals(declared[k], declared[key])) :: fields[k])[key := value]
  }

  // ---------------------------------------------------------------- the translation

  function ToMessage(schema: Schema, name: string, json: Json): Result<Value, Error>
    decreases json, 0
  {
    if !json.Object? then Err(ExpectedMessageObject)
    else
      var r := Filled(schema, name, json.members);
      if r.Ok? then Ok(Record(name, r.value)) else Err(r.error)
  }

  function ToScalar(schema: Schema, kind: Kind, json: Json): Result<Value, Error>
    decreases json, 1
  {
    if kind.Message? then ToMessage(schema, kind.messageName, json) else Leaf(schema, kind, json)
  }

  function ToField(schema: Schema, field: Field, json: Json): Result<Value, Error>
    decreases json, 2
  {
    match field.cardinality
    case Singular => ToScalar(schema, field.kind, json)
    case List =>
      if !json.Array? then Err(ExpectedArray)
      else
        var r := ListOf(schema, field.kind, json.items);
        if r.Ok? then Ok(Items(r.value)) else Err(r.error)
    case MapField =>
      if !json.Object? then Err(ExpectedMapObject)
      else if !field.kind.Message? then Err(InvalidMapField)
      else
        var entry := FieldsOf(schema, field.kind.messageName);
        if "key" !in entry || "value" !in entry then Err(InvalidMapEntry)
        else
          var r := MapOf(schema, entry["key"].kind, entry["value"].kind, json.members);
          if r.Ok? then Ok(Entries(r.value)) else Err(r.error)
  }

  /** The first failure ends the message. */
  function Filled(schema: Schema, name: string, members: seq<Member>): Result<map<string, Value>, Error>
    decreases members, 3
  {
    if members == [] then Ok(map[])
    else
      var front, last := Filled(schema, name, members[..|members| - 1]), members[|members| - 1];
      if front.Err? || last.key !in FieldsOf(schema, name) then front
      else
        var v := ToField(schema, FieldsOf(schema, name)[last.key], last.value);
        if v.Err? then Err(v.error) else Ok(SetField(FieldsOf(schema, name), front.value, last.key, v.value))
  }

  function ListOf(schema: Schema, kind: Kind, items: seq<Json>): Result<seq<Value>, Error>
    decreases items, 3
  {
    if items == [] then Ok([])
    else
      var front := ListOf(schema, kind, items[..|items| - 1]);
      if front.Err? then front
      else
        var v := ToScalar(schema, kind, items[|items| - 1]);
        if v.Err? then Err(v.error) else Ok(front.value + [v.value])
  }

  function MapOf(schema: Schema, keyKind: Kind, valueKind: Kind, members: seq<Member>): Result<map<MapKey, Value>, Error>
    decreases members, 3
  {
    if members == [] then Ok(map[])
    else
      var front, last := MapOf(schema, keyKind, valueKind, members[..|members| - 1]), members[|members| - 1];
      if front.Err? then front
      else
        var k := KeyValue(schema, keyKind, last.key);
        if k.Err? then Err(k.error)
        else
          var v := ToScalar(schema, valueKind, last.value);
          if v.Err? then Err(v.error) else Ok(AddEntry(front.value, k.value, v.value))
  }

  // ---------------------------------------------------------------- the code

  method JsonToDynamicMessage(schema: Schema, name: string, json: Json) returns (r: Result<Value, Error>)
    ensures r == ToMessage(schema, name, json)
    decreases json, 0
  {
    if !json.Object? {
      return Err(ExpectedMessageObject);
    }
    var declared := FieldsOf(schema, name);
    var fields: map<string, Value> := map[];
    for k := 0 to |json.members|
      invariant Filled(schema, name, json.members[..k]) == Ok(fields)
    {
      FilledStep(schema, name, json.members, k);
      var member := json.members[k];
      if member.key in declared {
        var v := JsonValToProst(schema, declared[member.key], member.value);
        if v.Err? {
          FailureStays(schema, name, json.members, k + 1);
          return Err(v.error);
        }
        fields := SetField(declared, fields, member.key, v.value);
      }
    }
    assert json.members[..|json.members|] == json.members;
    return Ok(Record(name, fields));
  }

  method JsonValToProst(schema: Schema, field: Field, json: Json) returns (r: Result<Value, Error>)
    ensures r == ToField(schema, field, json)
    decreases json, 2
  {
    if field.cardinality == List {
      if !json.Array? {
        return Err(ExpectedArray);
      }
      var items: seq<Value> := [];
      for k := 0 to |json.items|
        invariant ListOf(schema, field.kind, json.items[..k]) == Ok(items)
      {
        ListStep(schema, field.kind, json.items, k);
        var v := JsonScalarToProst(schema, field.kind, json.items[k]);
        if v.Err? {
          ListFailureStays(schema, field.kind, json.items, k + 1);
          return Err(v.error);
        }
        items := items + [v.value];
      }
      assert json.items[..|json.items|] == json.items;
      return Ok(Items(items));
    }
    if field.cardinality == MapField {
      if !json.Object? {
        return Err(ExpectedMapObject);
      }
      if !field.kind.Message? {
        return Err(InvalidMapField);
      }
      var entry := FieldsOf(schema, field.kind.messageName);
      if "key" !in entry || "value" !in entry {
        return Err(InvalidMapEntry);
      }
      r := JsonToMap(schema, entry["key"].kind, entry["value"].kind, json);
      return;
    }
    r := JsonScalarToProst(schema, field.kind, json);
  }

  /** The loop over a JSON object's members for a map field. */
  method JsonToMap(schema: Schema, keyKind: Kind, valueKind: Kind, json: Json) returns (r: Result<Value, Error>)
    requires json.Object?
    ensures var m := MapOf(schema, keyKind, valueKind, json.members); r == if m.Ok? then Ok(Entries(m.value)) else Err(m.error)
    decreases json, 1
  {
    hide *;
    EmptyMap(schema, keyKind, valueKind);
    var entries: map<MapKey, Value> := map[];
    for k := 0 to |json.members|
      invariant MapOf(schema, keyKind, valueKind, json.members[..k]) == Ok(entries)
    {
      MapStep(schema, keyKind, valueKind, json.members, k);
      var key := KeyValue(schema, keyKind, json.members[k].key);
      if key.Err? {
        MapFailureStays(schema, keyKind, valueKind, json.members, k + 1);
        return Err(key.error);
      }
      var value := JsonScalarToProst(schema, valueKind, json.members[k].value);
      if value.Err? {
        MapFailureStays(schema, keyKind, valueKind, json.members, k + 1);
        return Err(value.error);
      }
      entries := AddEntry(entries, key.value, value.value);
    }
    assert json.members[..|json.members|] == json.members;
    return Ok(Entries(entries));
  }

  lemma EmptyMap(schema: Schema, keyKind: Kind, valueKind: Kind)
    ensures MapOf(schema, keyKind, valueKind, []) == Ok(map[])
  {
  }

  method JsonScalarToProst(schema: Schema, kind: Kind, json: Json) returns (r: Result<Value, Error>)
    ensures r == ToScalar(schema, kind, json)
    decreases json, 1
  {
    if kind.Message? {
      r := JsonToDynamicMessage(schema, kind.messageName, json);
    } else {
      r := Leaf(schema, kind, json);
    }
  }

  lemma FilledStep(schema: Schema, name: string, members: seq<Member>, k: nat)
    requires k < |members|
    ensures var front, last, declared := Filled(schema, name, members[..k]), members[k], FieldsOf(schema, name);
            Filled(schema, name, members[..k + 1]) ==
            if front.Err? || last.key !in declared then front
            else
              var v := ToField(schema, declared[last.key], last.value);
              if v.Err? then Err(v.error) else Ok(SetField(declared, front.value, last.key, v.value))
  {
    assert members[..k + 1][..k] == members[..k];
  }

  lemma ListStep(schema: Schema, kind: Kind, items: seq<Json>, k: nat)
    requires k < |items|
    ensures var front, v := ListOf(schema, kind, items[..k]), ToScalar(schema, kind, items[k]);
            ListOf(schema, kind, items[..k + 1]) ==
            if front.Err? then front else if v.Err? then Err(v.error) else Ok(front.value + [v.value])
  {
    assert items[..k + 1][..k] == items[..k];
  }

  lemma MapStep(schema: Schema, keyKind: Kind, valueKind: Kind, members: seq<Member>, k: nat)
    requires k < |members|
    ensures var front := MapOf(schema, keyKind, valueKind, members[..k]);
            var key, v := KeyValue(schema, keyKind, members[k].key), ToScalar(schema, valueKind, members[k].value);
            MapOf(schema, keyKind, valueKind, members[..k + 1]) ==
            if front.Err? then front else if key.Err? then Err(key.error) else if v.Err? then Err(v.error)
            else Ok(AddEntry(front.value, key.value, v.value))
  {
    assert members[..k + 1][..k] == members[..k];
  }

  lemma {:induction false} FailureStays(schema: Schema, name: string, members: seq<Member>, k: nat)
    requires k <= |members| && Filled(schema, name, members[..k]).Err?
    ensures Filled(schema, name, members) == Filled(schema, name, members[..k])
    decreases |members| - k
  {
    if k == |members| {
      assert members[..k] == members;
    } else {
      FilledStep(schema, name, members, k);
      FailureStays(schema, name, members, k + 1);
    }
  }

  lemma {:induction false} ListFailureStays(schema: Schema, kind: Kind, items: seq<Json>, k: nat)
    requires k <= |items| && ListOf(schema, kind, items[..k]).Err?
    ensures ListOf(schema, kind, items) == ListOf(schema, kind, items[..k])
    decreases |items| - k
  {
    if k == |items| {
      assert items[..k] == items;
    } else {
      ListStep(schema, kind, items, k);
      ListFailureStays(schema, kind, items, k + 1);
    }
  }

  lemma {:induction false} MapFailureStays(schema: Schema, keyKind: Kind, valueKind: Kind, members: seq<Member>, k: nat)
    requires k <= |members| && MapOf(schema, keyKind, valueKind, members[..k]).Err?
    ensures MapOf(schema, keyKind, valueKind, members) == MapOf(schema, keyKind, valueKind, members[..k])
    decreases |members| - k
  {
    if k == |members| {
      assert members[..k] == members;
    } else {
      MapStep(schema, keyKind, valueKind, members, k);
      MapFailureStays(schema, keyKind, valueKind, members, k + 1);
    }
  }

  // ---------------------------------------------------------------- element by element

  /** A list succeeds exactly when every element does, and then holds their values in order. */
  lemma {:induction false} ListElements(schema: Schema, kind: Kind, items: seq<Json>)
    ensures var r := ListOf(schema, kind, items);
            && (r.Ok? <==> forall i :: 0 <= i < |items| ==> ToScalar(schema, kind, items[i]).Ok?)
            && (r.Ok? ==> |r.value| == |items| && forall i :: 0 <= i < |items| ==> r.value[i] == ToScalar(schema, kind, items[i]).value)
    decreases |items|
  {
    hide ToScalar;
    if items != [] {
      var n := |items| - 1;
      ListElements(schema, kind, items[..n]);
      forall i | 0 <= i < n ensures items[..n][i] == items[i] { }
      if ListOf(schema, kind, items[..n]).Err? {
        var i :| 0 <= i < n && ToScalar(schema, kind, items[..n][i]).Err?;
        assert ToScalar(schema, kind, items[i]).Err?;
      }
    }
  }

  /** A list fails with the error of its first element that fails. */
  lemma {:induction false} ListError(schema: Schema, kind: Kind, items: seq<Json>) returns (k: nat)
    requires ListOf(schema, kind, items).Err?
    ensures k < |items| && ToScalar(schema, kind, items[k]) == Err(ListOf(schema, kind, items).error)
    ensures forall i :: 0 <= i < k ==> ToScalar(schema, kind, items[i]).Ok?
    decreases |items|
  {
    hide ToScalar;
    var n := |items| - 1;
    if ListOf(schema, kind, items[..n]).Err? {
      k := ListError(schema, kind, items[..n]);
      forall i | 0 <= i <= k ensures items[..n][i] == items[i] { }
    } else {
      k := n;
      ListElements(schema, kind, items[..n]);
      forall i | 0 <= i < n ensures ToScalar(schema, kind, items[i]).Ok? {
        assert items[..n][i] == items[i];
      }
    }
  }

  /** JSON objects have each key once. */
  predicate Distinct(members: seq<Member>) {
    forall i, j :: 0 <= i < j < |members| ==> members[i].key != members[j].key
  }

  predicate EntryOk(schema: Schema, keyKind: Kind, valueKind: Kind, member: Member) {
    KeyValue(schema, keyKind, member.key).Ok? && ToScalar(schema, valueKind, member.value).Ok?
  }

  lemma {:induction false} MapSucceedsIff(schema: Schema, keyKind: Kind, valueKind: Kind, members: seq<Member>)
    ensures MapOf(schema, keyKind, valueKind, members).Ok? <==>
            forall i :: 0 <= i < |members| ==> EntryOk(schema, keyKind, valueKind, members[i])
    decreases |members|
  {
    hide KeyValue, AddEntry, ToScalar;
    if members != [] {
      var n := |members| - 1;
      MapSucceedsIff(schema, keyKind, valueKind, members[..n]);
      forall i | 0 <= i < n ensures members[..n][i] == members[i] { }
      if MapOf(schema, keyKind, valueKind, members[..n]).Err? {
        var i :| 0 <= i < n && !EntryOk(schema, keyKind, valueKind, members[..n][i]);
        assert !EntryOk(schema, keyKind, valueKind, members[i]);
      }
    }
  }

  lemma StringEntry(schema: Schema, entries: map<MapKey, Value>, key: string, value: Result<Value, Error>)
    ensures KeyValue(schema, String, key) == Ok(Str(key))
    ensures value.Ok? ==> AddEntry(entries, Str(key), value.value) == entries[StringKey(key) := value.value]
  {
  }

  predicate KeysFrom(members: seq<Member>, entries: map<MapKey, Value>) {
    forall k :: k in entries ==> exists i :: 0 <= i < |members| && k == StringKey(members[i].key)
  }

  predicate Holds(schema: Schema, kind: Kind, member: Member, entries: map<MapKey, Value>) {
    StringKey(member.key) in entries && Ok(entries[StringKey(member.key)]) == ToScalar(schema, kind, member.value)
  }

  lemma EntryAdded(schema: Schema, kind: Kind, members: seq<Member>, entries: map<MapKey, Value>)
    requires members != [] && Distinct(members)
    requires var before := members[..|members| - 1];
             KeysFrom(before, entries) && forall i :: 0 <= i < |before| ==> Holds(schema, kind, before[i], entries)
    requires ToScalar(schema, kind, members[|members| - 1].value).Ok?
    ensures var last := members[|members| - 1];
            var more := entries[StringKey(last.key) := ToScalar(schema, kind, last.value).value];
            KeysFrom(members, more) && forall i :: 0 <= i < |members| ==> Holds(schema, kind, members[i], more)
  {
    hide ToScalar;
    var before, n := members[..|members| - 1], |members| - 1;
    var more := entries[StringKey(members[n].key) := ToScalar(schema, kind, members[n].value).value];
    forall i | 0 <= i < |members| ensures Holds(schema, kind, members[i], more) {
      if i < n {
        assert before[i] == members[i];
        assert Holds(schema, kind, before[i], entries);
      }
    }
    forall k | k in more ensures exists i :: 0 <= i < |members| && k == StringKey(members[i].key) {
      if k != StringKey(members[n].key) {
        var i :| 0 <= i < n && k == StringKey(before[i].key);
        assert k == StringKey(members[i].key);
      }
    }
  }

  /** A map with string keys has the JSON object's keys, each with its own value. */
  lemma {:induction false} MapEntries(schema: Schema, kind: Kind, members: seq<Member>)
    requires Distinct(members) && MapOf(schema, String, kind, members).Ok?
    ensures var entries := MapOf(schema, String, kind, members).value;
            KeysFrom(members, entries) && forall i :: 0 <= i < |members| ==> Holds(schema, kind, members[i], entries)
    decreases |members|
  {
    hide KeyValue, AddEntry, ToScalar, Holds;
    if members != [] {
      hide KeysFrom;
      var n := |members| - 1;
      var before, last := members[..n], members[n];
      MapEntries(schema, kind, before);
      StringEntry(schema, MapOf(schema, String, kind, before).value, last.key, ToScalar(schema, kind, last.value));
      EntryAdded(schema, kind, members, MapOf(schema, String, kind, before).value);
    }
  }

  predicate MemberOk(schema: Schema, declared: map<string, Field>, member: Member) {
    member.key in declared ==> ToField(schema, declared[member.key], member.value).Ok?
  }

  lemma {:induction false} MessageSucceedsIff(schema: Schema, name: string, members: seq<Member>)
    ensures Filled(schema, name, members).Ok? <==>
            forall i :: 0 <= i < |members| ==> MemberOk(schema, FieldsOf(schema, name), members[i])
    decreases |members|
  {
    if members != [] {
      var n := |members| - 1;
      MessageSucceedsIff(schema, name, members[..n]);
      forall i | 0 <= i < n ensures members[..n][i] == members[i] { }
      if Filled(schema, name, members[..n]).Err? {
        var i :| 0 <= i < n && !MemberOk(schema, FieldsOf(schema, name), members[..n][i]);
        assert !MemberOk(schema, FieldsOf(schema, name), members[i]);
      }
    }
  }

  /** A message fails with the error of its first declared member that fails. */
  lemma {:induction false} MessageError(schema: Schema, name: string, members: seq<Member>) returns (k: nat)
    requires Filled(schema, name, members).Err?
    ensures k < |members| && members[k].key in FieldsOf(schema, name)
    ensures ToField(schema, FieldsOf(schema, name)[members[k].key], members[k].value) == Err(Filled(schema, name, members).error)
    ensures forall i :: 0 <= i < k ==> MemberOk(schema, FieldsOf(schema, name), members[i])
    decreases |members|
  {
    var n := |members| - 1;
    if Filled(schema, name, members[..n]).Err? {
      k := MessageError(schema, name, members[..n]);
      forall i | 0 <= i <= k ensures members[..n][i] == members[i] { }
    } else {
      k := n;
      MessageSucceedsIff(schema, name, members[..n]);
      forall i | 0 <= i < n ensures MemberOk(schema, FieldsOf(schema, name), members[i]) {
        assert members[..n][i] == members[i];
      }
    }
  }

  /** No later member sets another field of the same oneof. */
  predicate Unrivalled(declared: map<string, Field>, members: seq<Member>, i: nat)
    requires i < |members| && members[i].key in declared
  {
    forall j :: i < j < |members| && members[j].key in declared ==> !Rivals(declared[members[i].key], declared[members[j].key])
  }

  /** The fields set are the declared keys, each with the translation of its own value, except
      that of a oneof only the last one given is left. */
  lemma {:induction false} MessageFields(schema: Schema, name: string, members: seq<Member>)
    requires Distinct(members) && Filled(schema, name, members).Ok?
    ensures var declared, fields := FieldsOf(schema, name), Filled(schema, name, members).value;
            && (forall i :: 0 <= i < |members| && members[i].key in declared ==>
                  (members[i].key in fields <==> Unrivalled(declared, members, i))
                  && (members[i].key in fields ==> Ok(fields[members[i].key]) == ToField(schema, declared[members[i].key], members[i].value)))
            && (forall k :: k in fields ==> k in declared && exists i :: 0 <= i < |members| && members[i].key == k)
    decreases |members|
  {
    if members != [] {
      var declared, fields, n := FieldsOf(schema, name), Filled(schema, name, members).value, |members| - 1;
      var before := members[..n];
      MessageFields(schema, name, before);
      assert members[n].key !in declared ==> fields == Filled(schema, name, before).value;
      assert members[n].key in declared ==>
          fields == SetField(declared, Filled(schema, name, before).value, members[n].key, ToField(schema, declared[members[n].key], members[n].value).value);
      forall i | 0 <= i < n && members[i].key in declared
        ensures members[i].key in fields <==> Unrivalled(declared, members, i)
        ensures members[i].key in fields ==> Ok(fields[members[i].key]) == ToField(schema, declared[members[i].key], members[i].value)
      {
        assert before[i] == members[i];
        UnrivalledNext(declared, members, i);
      }
      forall k | k in fields ensures k in declared && exists i :: 0 <= i < |members| && members[i].key == k {
        if k != members[n].key {
          var i :| 0 <= i < n && before[i].key == k;
          assert members[i].key == k;
        }
      }
    }
  }

  /** A declared key is set exactly if no later declared member belongs to the same oneof, so of
      each oneof one key is left at most: the last one given. */
  lemma OneofsKeepTheLast(schema: Schema, name: string, members: seq<Member>)
    requires name in schema.messages && Distinct(members) && Filled(schema, name, members).Ok?
    ensures var declared, fields := schema.messages[name], Filled(schema, name, members).value;
            forall i :: 0 <= i < |members| && members[i].key in declared ==>
              (members[i].key in fields <==>
               forall j :: i < j < |members| && members[j].key in declared ==>
                             declared[members[i].key].oneof == None || declared[members[j].key].oneof != declared[members[i].key].oneof)
  {
    hide Filled;
    MessageFields(schema, name, members);
  }

  lemma UnrivalledNext(declared: map<string, Field>, members: seq<Member>, i: nat)
    requires i < |members| - 1 && members[i].key in declared
    ensures var n := |members| - 1;
            Unrivalled(declared, members, i) <==>
            Unrivalled(declared, members[..n], i)
            && (members[n].key in declared ==> !Rivals(declared[members[i].key], declared[members[n].key]))
  {
    var n := |members| - 1;
    forall j | i <= j < n ensures members[..n][j] == members[j] { }
  }

  // ---------------------------------------------------------------- which JSON is accepted

  predicate LeafFits(schema: Schema, kind: Kind, json: Json) {
    match kind
    case Double | Float => json.Integer? || json.Fraction?
    case Int32 | Sint32 | Sfixed32 | Int64 | Sint64 | Sfixed64 => json.Integer? && json.n < TWO63
    case Uint32 | Fixed32 | Uint64 | Fixed64 => json.Integer? && json.n >= 0
    case Bool => json.Boolean?
    case String => json.Text?
    case Bytes => json.Text? && schema.base64(json.text).Some?
    case Enum(name) => (json.Text? && json.text in NumbersOf(schema, name)) || (json.Integer? && json.n < TWO63)
    case Message(_) => false
  }

  /** Strings are the only keys that can be made from a JSON key, apart from the two kinds
      protobuf does not allow as keys. */
  predicate KeyFits(schema: Schema, kind: Kind, key: string) {
    || kind == String
    || (kind == Bytes && schema.base64(key).Some?)
    || (kind.Enum? && key in NumbersOf(schema, kind.enumName))
  }

  predicate Conforms(schema: Schema, kind: Kind, json: Json)
    decreases json, 0
  {
    if !kind.Message? then LeafFits(schema, kind, json)
    else
      var declared := FieldsOf(schema, kind.messageName);
      json.Object? && forall i :: 0 <= i < |json.members| && json.members[i].key in declared ==>
                        ConformsField(schema, declared[json.members[i].key], json.members[i].value)
  }

  predicate ConformsField(schema: Schema, field: Field, json: Json)
    decreases json, 1
  {
    match field.cardinality
    case Singular => Conforms(schema, field.kind, json)
    case List => json.Array? && forall i :: 0 <= i < |json.items| ==> Conforms(schema, field.kind, json.items[i])
    case MapField =>
      && json.Object? && field.kind.Message?
      && var entry := FieldsOf(schema, field.kind.messageName);
      && "key" in entry && "value" in entry
      && forall i :: 0 <= i < |json.members| ==>
           KeyFits(schema, entry["key"].kind, json.members[i].key) && Conforms(schema, entry["value"].kind, json.members[i].value)
  }

  /** The translation succeeds exactly on the JSON that conforms to the schema. */
  lemma {:induction false} ScalarSucceedsIff(schema: Schema, kind: Kind, json: Json)
    ensures ToScalar(schema, kind, json).Ok? <==> Conforms(schema, kind, json)
    decreases json, 0
  {
    if kind.Message? && json.Object? {
      var declared := FieldsOf(schema, kind.messageName);
      MessageSucceedsIff(schema, kind.messageName, json.members);
      forall i | 0 <= i < |json.members| && json.members[i].key in declared
        ensures MemberOk(schema, declared, json.members[i]) <==>
                ConformsField(schema, declared[json.members[i].key], json.members[i].value)
      {
        FieldSucceedsIff(schema, declared[json.members[i].key], json.members[i].value);
      }
    }
  }

  lemma {:induction false} FieldSucceedsIff(schema: Schema, field: Field, json: Json)
    ensures ToField(schema, field, json).Ok? <==> ConformsField(schema, field, json)
    decreases json, 1
  {
    match field.cardinality
    case Singular =>
      ScalarSucceedsIff(schema, field.kind, json);
    case List =>
      if json.Array? {
        ListElements(schema, field.kind, json.items);
        forall i | 0 <= i < |json.items|
          ensures ToScalar(schema, field.kind, json.items[i]).Ok? <==> Conforms(schema, field.kind, json.items[i])
        {
          ScalarSucceedsIff(schema, field.kind, json.items[i]);
        }
      }
    case MapField =>
      if json.Object? && field.kind.Message? {
        var entry := FieldsOf(schema, field.kind.messageName);
        if "key" in entry && "value" in entry {
          MapSucceedsIff(schema, entry["key"].kind, entry["value"].kind, json.members);
          forall i | 0 <= i < |json.members|
            ensures EntryOk(schema, entry["key"].kind, entry["value"].kind, json.members[i]) <==>
                    KeyFits(schema, entry["key"].kind, json.members[i].key) && Conforms(schema, entry["value"].kind, json.members[i].value)
          {
            ScalarSucceedsIff(schema, entry["value"].kind, json.members[i].value);
          }
        }
      }
  }

  // ---------------------------------------------------------------- which error

  /** The error of a value that does not conform, kind by kind; of a message that is an object it is
      that of a member (`MessageError`). */
  lemma ScalarErrorIs(schema: Schema, kind: Kind, json: Json)
    requires ToScalar(schema, kind, json).Err?
    ensures var error := ToScalar(schema, kind, json).error;
            match kind
            case Double => error == ExpectedDouble
            case Float => error == ExpectedFloat
            case Int32 | Sint32 | Sfixed32 => error == ExpectedInt32
            case Int64 | Sint64 | Sfixed64 => error == ExpectedInt64
            case Uint32 | Fixed32 => error == ExpectedUint32
            case Uint64 | Fixed64 => error == ExpectedUint64
            case Bool => error == ExpectedBool
            case String => error == ExpectedString
            case Bytes => error == if json.Text? then InvalidBase64 else ExpectedBase64
            case Enum(_) => error == if json.Text? then UnknownEnumValue else ExpectedEnum
            case Message(name) => if json.Object? then Filled(schema, name, json.members) == Err(error) else error == ExpectedMessageObject
  {
  }

  /** Nothing is taken but JSON of the kind's own shape: there is no conversion from text to numbers,
      and null stands for nothing. */
  lemma OnlyOwnShape(schema: Schema, kind: Kind, json: Json)
    requires ToScalar(schema, kind, json).Ok?
    ensures match kind
            case Double | Float => json.Integer? || json.Fraction?
            case Bool => json.Boolean?
            case String => json.Text?
            case Bytes => json.Text? && schema.base64(json.text).Some?
            case Enum(name) => json.Integer? || (json.Text? && name in schema.enums && json.text in schema.enums[name])
            case Message(_) => json.Object?
            case _ => json.Integer?
  {
  }

  /** The same for a field. */
  lemma OnlyOwnFieldShape(schema: Schema, field: Field, json: Json)
    requires ToField(schema, field, json).Ok?
    ensures match field.cardinality
            case Singular => ToScalar(schema, field.kind, json).Ok?
            case List => json.Array?
            case MapField => json.Object? && field.kind.Message?
  {
  }

  /** The error of a field that does not conform: its own shape is looked at first, in this order,
      and then its elements or entries. */
  lemma FieldErrorIs(schema: Schema, field: Field, json: Json)
    requires ToField(schema, field, json).Err?
    ensures var error := ToField(schema, field, json).error;
            match field.cardinality
            case Singular => ToScalar(schema, field.kind, json) == Err(error)
            case List => if json.Array? then ListOf(schema, field.kind, json.items) == Err(error) else error == ExpectedArray
            case MapField =>
              if !json.Object? then error == ExpectedMapObject
              else if !field.kind.Message? then error == InvalidMapField
              else
                var entry := FieldsOf(schema, field.kind.messageName);
                if "key" in entry && "value" in entry then MapOf(schema, entry["key"].kind, entry["value"].kind, json.members) == Err(error)
                else error == InvalidMapEntry
  {
  }

  /** A map fails with the error of its first entry that fails: of its key, taken as a JSON string,
      before that of its value. */
  lemma {:induction false} MapError(schema: Schema, keyKind: Kind, valueKind: Kind, members: seq<Member>) returns (k: nat)
    requires MapOf(schema, keyKind, valueKind, members).Err?
    ensures k < |members|
    ensures var error := MapOf(schema, keyKind, valueKind, members).error;
            var key := ToScalar(schema, keyKind, Text(members[k].key));
            if key.Err? then key == Err(error) else ToScalar(schema, valueKind, members[k].value) == Err(error)
    ensures forall i :: 0 <= i < k ==>
              ToScalar(schema, keyKind, Text(members[i].key)).Ok? && ToScalar(schema, valueKind, members[i].value).Ok?
    decreases |members|
  {
    hide ToScalar, AddEntry, KeyValue;
    var n := |members| - 1;
    KeyIsText(schema, keyKind, members[n].key);
    if MapOf(schema, keyKind, valueKind, members[..n]).Err? {
      k := MapError(schema, keyKind, valueKind, members[..n]);
      forall i | 0 <= i <= k ensures members[..n][i] == members[i] { }
    } else {
      k := n;
      MapSucceedsIff(schema, keyKind, valueKind, members[..n]);
      forall i | 0 <= i < n ensures ToScalar(schema, keyKind, Text(members[i].key)).Ok? && ToScalar(schema, valueKind, members[i].value).Ok? {
        assert members[..n][i] == members[i];
        assert EntryOk(schema, keyKind, valueKind, members[..n][i]);
        KeyIsText(schema, keyKind, members[i].key);
      }
    }
  }

  lemma KeyIsText(schema: Schema, keyKind: Kind, key: string)
    ensures KeyValue(schema, keyKind, key) == ToScalar(schema, keyKind, Text(key))
  {
  }

  /** The kinds protobuf allows as map keys. */
  predicate IsKeyKind(kind: Kind) {
    kind.String? || kind.Bool? || IsSigned32(kind) || IsSigned64(kind) || IsUnsigned32(kind) || IsUnsigned64(kind)
  }

  predicate IsSigned32(kind: Kind) { kind.Int32? || kind.Sint32? || kind.Sfixed32? }
  predicate IsSigned64(kind: Kind) { kind.Int64? || kind.Sint64? || kind.Sfixed64? }
  predicate IsUnsigned32(kind: Kind) { kind.Uint32? || kind.Fixed32? }
  predicate IsUnsigned64(kind: Kind) { kind.Uint64? || kind.Fixed64? }

  /** A map field whose values all conform is accepted exactly when its keys are strings or it
      is empty: the branches for the other key kinds are never taken. */
  lemma MapKeysMustBeStrings(schema: Schema, field: Field, json: Json)
    requires field.cardinality == MapField && field.kind.Message? && json.Object?
    requires var entry := FieldsOf(schema, field.kind.messageName);
             && "key" in entry && "value" in entry && IsKeyKind(entry["key"].kind)
             && forall i :: 0 <= i < |json.members| ==> Conforms(schema, entry["value"].kind, json.members[i].value)
    ensures var entry := FieldsOf(schema, field.kind.messageName);
            ToField(schema, field, json).Ok? <==> entry["key"].kind == String || json.members == []
  {
    FieldSucceedsIff(schema, field, json);
    var entry := FieldsOf(schema, field.kind.messageName);
    if json.members != [] {
      assert KeyFits(schema, entry["key"].kind, json.members[0].key) <==> entry["key"].kind == String;
    }
  }

  // ---------------------------------------------------------------- which value

  /** Every JSON object in it has each key once. */
  predicate WellFormed(json: Json) {
    match json
    case Array(items) => forall i :: 0 <= i < |items| ==> WellFormed(items[i])
    case Object(members) => Distinct(members) && forall i :: 0 <= i < |members| ==> WellFormed(members[i].value)
    case _ => true
  }

  predicate SameNumber(json: Json, x: real) {
    (json.Integer? && x == json.n as real) || (json.Fraction? && x == json.x)
  }

  predicate Congruent(json: Json, k: int) {
    json.Integer? && (k - json.n) % TWO32 == 0
  }

  /** The value the schema gives a JSON leaf: integers exact at 64 bits, modulo 2^32 at 32. */
  predicate LeafDenotes(schema: Schema, kind: Kind, json: Json, v: Value) {
    && LeafFits(schema, kind, json)
    && match kind
       case Double => v.F64? && SameNumber(json, v.x)
       case Float => v.F32? && SameNumber(json, v.y)
       case Int32 | Sint32 | Sfixed32 => v.I32? && -TWO31 <= v.i < TWO31 && Congruent(json, v.i)
       case Int64 | Sint64 | Sfixed64 => v == I64(json.n)
       case Uint32 | Fixed32 => v.U32? && 0 <= v.u < TWO32 && Congruent(json, v.u)
       case Uint64 | Fixed64 => v == U64(json.n)
       case Bool => v == Flag(json.flag)
       case String => v == Str(json.text)
       case Bytes => v == Blob(schema.base64(json.text).value)
       case Enum(name) =>
         if json.Text? then v == EnumNumber(NumbersOf(schema, name)[json.text])
         else v.EnumNumber? && -TWO31 <= v.number < TWO31 && Congruent(json, v.number)
       case Message(_) => false
  }

  /** `v` is the message or leaf `json` stands for: the declared keys with their own values, of
      each oneof the last one given. */
  predicate Denotes(schema: Schema, kind: Kind, json: Json, v: Value)
    decreases json, 0
  {
    if !kind.Message? then LeafDenotes(schema, kind, json, v)
    else
      && Conforms(schema, kind, json)
      && v.Record? && v.name == kind.messageName
      && MembersDenote(schema, FieldsOf(schema, v.name), json.members, v.fields)
  }

  predicate MembersDenote(schema: Schema, declared: map<string, Field>, members: seq<Member>, fields: map<string, Value>)
    decreases members, 2
  {
    && (forall k :: k in fields ==> k in declared && exists i :: 0 <= i < |members| && members[i].key == k)
    && (forall i :: 0 <= i < |members| && members[i].key in declared ==>
          (members[i].key in fields <==> Unrivalled(declared, members, i)))
    && (forall i :: 0 <= i < |members| && members[i].key in declared && members[i].key in fields ==>
          FieldDenotes(schema, declared[members[i].key], members[i].value, fields[members[i].key]))
  }

  predicate FieldDenotes(schema: Schema, field: Field, json: Json, v: Value)
    decreases json, 1
  {
    match field.cardinality
    case Singular => Denotes(schema, field.kind, json, v)
    case List =>
      && json.Array? && v.Items? && |v.items| == |json.items|
      && forall i :: 0 <= i < |json.items| ==> Denotes(schema, field.kind, json.items[i], v.items[i])
    case MapField =>
      && ConformsField(schema, field, json) && v.Entries?
      && var entry := FieldsOf(schema, field.kind.messageName);
      if entry["key"].kind != String then v.entries == map[]
      else EntriesDenote(schema, entry["value"].kind, json.members, v.entries)
  }

  predicate EntriesDenote(schema: Schema, kind: Kind, members: seq<Member>, entries: map<MapKey, Value>)
    decreases members, 2
  {
    KeysFrom(members, entries) && forall i :: 0 <= i < |members| ==> EntryDenotes(schema, kind, members[i], entries)
  }

  predicate EntryDenotes(schema: Schema, kind: Kind, member: Member, entries: map<MapKey, Value>)
    decreases member, 1
  {
    StringKey(member.key) in entries && Denotes(schema, kind, member.value, entries[StringKey(member.key)])
  }

  lemma LeafDenotesIff(schema: Schema, kind: Kind, json: Json, v: Value)
    requires !kind.Message?
    ensures Leaf(schema, kind, json) == Ok(v) <==> LeafDenotes(schema, kind, json, v)
  {
    if json.Integer? && (IsSigned32(kind) || IsUnsigned32(kind) || kind.Enum?) {
      NarrowDenotesIff(schema, kind, json.n, v);
    }
  }

  lemma NarrowDenotesIff(schema: Schema, kind: Kind, n: JsonInt, v: Value)
    requires IsSigned32(kind) || IsUnsigned32(kind) || kind.Enum?
    ensures Leaf(schema, kind, Integer(n)) == Ok(v) <==> LeafDenotes(schema, kind, Integer(n), v)
  {
    hide AsI32, AsU32;
    Residue(n);
    if v.I32? {
      OneResidue(n, v.i, AsI32(n));
    } else if v.EnumNumber? {
      OneResidue(n, v.number, AsI32(n));
    } else if v.U32? {
      OneResidue(n, v.u, AsU32(n));
    }
  }

  lemma Residue(n: int)
    ensures (AsI32(n) - n) % TWO32 == 0 && -TWO31 <= AsI32(n) < TWO31
    ensures (AsU32(n) - n) % TWO32 == 0 && 0 <= AsU32(n) < TWO32
  {
    assert n == (n + TWO31) / TWO32 * TWO32 + AsI32(n);
    assert n == n / TWO32 * TWO32 + AsU32(n);
  }

  lemma OneResidue(n: int, a: int, b: int)
    ensures (a - n) % TWO32 == 0 && (b - n) % TWO32 == 0 && -TWO32 < a - b < TWO32 ==> a == b
  {
  }

  lemma NoEntries(schema: Schema, keyKind: Kind, valueKind: Kind, members: seq<Member>)
    requires keyKind != String && MapOf(schema, keyKind, valueKind, members).Ok?
    ensures MapOf(schema, keyKind, valueKind, members).value == map[]
    decreases |members|
  {
    hide ToScalar;
    if members != [] {
      NoEntries(schema, keyKind, valueKind, members[..|members| - 1]);
    }
  }

  /** The translation is right: it gives a value exactly when JSON with distinct keys denotes
      that value, for every schema. */
  lemma {:induction false} ScalarDenotesIff(schema: Schema, kind: Kind, json: Json, v: Value)
    requires WellFormed(json)
    ensures ToScalar(schema, kind, json) == Ok(v) <==> Denotes(schema, kind, json, v)
    decreases json, 0
  {
    if !kind.Message? {
      LeafDenotesIff(schema, kind, json, v);
    } else {
      ScalarSucceedsIff(schema, kind, json);
      if Conforms(schema, kind, json) && v.Record? && v.name == kind.messageName {
        MembersDenoteIff(schema, v.name, json.members, v.fields);
      }
    }
  }

  lemma {:induction false} MembersDenoteIff(schema: Schema, name: string, members: seq<Member>, fields: map<string, Value>)
    requires Distinct(members) && (forall i :: 0 <= i < |members| ==> WellFormed(members[i].value))
    requires Filled(schema, name, members).Ok?
    ensures Filled(schema, name, members).value == fields <==> MembersDenote(schema, FieldsOf(schema, name), members, fields)
    decreases members, 2
  {
    var declared, result := FieldsOf(schema, name), Filled(schema, name, members).value;
    MessageFields(schema, name, members);
    forall i | 0 <= i < |members| && members[i].key in declared && members[i].key in fields
      ensures FieldDenotes(schema, declared[members[i].key], members[i].value, fields[members[i].key]) <==>
              ToField(schema, declared[members[i].key], members[i].value) == Ok(fields[members[i].key])
    {
      FieldDenotesIff(schema, declared[members[i].key], members[i].value, fields[members[i].key]);
    }
    if MembersDenote(schema, declared, members, fields) {
      SameFields(schema, declared, members, result, fields);
    }
  }

  lemma SameFields(schema: Schema, declared: map<string, Field>, members: seq<Member>, a: map<string, Value>, b: map<string, Value>)
    requires forall k :: k in a ==> k in declared && exists i :: 0 <= i < |members| && members[i].key == k
    requires forall k :: k in b ==> k in declared && exists i :: 0 <= i < |members| && members[i].key == k
    requires forall i :: 0 <= i < |members| && members[i].key in declared ==>
               (members[i].key in a <==> Unrivalled(declared, members, i)) && (members[i].key in b <==> Unrivalled(declared, members, i))
    requires forall i :: 0 <= i < |members| && members[i].key in declared && members[i].key in a ==>
               Ok(a[members[i].key]) == ToField(schema, declared[members[i].key], members[i].value)
    requires forall i :: 0 <= i < |members| && members[i].key in declared && members[i].key in b ==>
               Ok(b[members[i].key]) == ToField(schema, declared[members[i].key], members[i].value)
    ensures a == b
  {
    assert a.Keys == b.Keys;
  }

  lemma {:induction false} FieldDenotesIff(schema: Schema, field: Field, json: Json, v: Value)
    requires WellFormed(json)
    ensures ToField(schema, field, json) == Ok(v) <==> FieldDenotes(schema, field, json, v)
    decreases json, 1
  {
    match field.cardinality
    case Singular =>
      ScalarDenotesIff(schema, field.kind, json, v);
    case List =>
      if json.Array? && v.Items? && |v.items| == |json.items| {
        ListElements(schema, field.kind, json.items);
        forall i | 0 <= i < |json.items|
          ensures ToScalar(schema, field.kind, json.items[i]) == Ok(v.items[i]) <==> Denotes(schema, field.kind, json.items[i], v.items[i])
        {
          ScalarDenotesIff(schema, field.kind, json.items[i], v.items[i]);
        }
        var r := ListOf(schema, field.kind, json.items);
        if FieldDenotes(schema, field, json, v) {
          assert r.value == v.items;
        }
      } else if json.Array? {
        ListElements(schema, field.kind, json.items);
      }
    case MapField =>
      FieldSucceedsIff(schema, field, json);
      if ConformsField(schema, field, json) && v.Entries? {
        var entry := FieldsOf(schema, field.kind.messageName);
        if entry["key"].kind != String {
          NoEntries(schema, entry["key"].kind, entry["value"].kind, json.members);
        } else {
          EntriesDenoteIff(schema, entry["value"].kind, json.members, v.entries);
        }
      }
  }

  lemma {:induction false} EntriesDenoteIff(schema: Schema, kind: Kind, members: seq<Member>, entries: map<MapKey, Value>)
    requires Distinct(members) && (forall i :: 0 <= i < |members| ==> WellFormed(members[i].value))
    requires MapOf(schema, String, kind, members).Ok?
    ensures MapOf(schema, String, kind, members).value == entries <==> EntriesDenote(schema, kind, members, entries)
    decreases members, 2
  {
    hide KeysFrom, Holds, EntryDenotes, MapOf, ToScalar, Denotes, WellFormed;
    MapEntries(schema, kind, members);
    forall i | 0 <= i < |members|
      ensures EntryDenotes(schema, kind, members[i], entries) <==> Holds(schema, kind, members[i], entries)
    {
      EntryDenotesIff(schema, kind, members[i], entries);
    }
    if EntriesDenote(schema, kind, members, entries) {
      SameEntries(schema, kind, members, MapOf(schema, String, kind, members).value, entries);
    }
  }

  lemma {:induction false} EntryDenotesIff(schema: Schema, kind: Kind, member: Member, entries: map<MapKey, Value>)
    requires WellFormed(member.value)
    ensures EntryDenotes(schema, kind, member, entries) <==> Holds(schema, kind, member, entries)
    decreases member, 1
  {
    hide ToScalar, Denotes, WellFormed;
    if StringKey(member.key) in entries {
      ScalarDenotesIff(schema, kind, member.value, entries[StringKey(member.key)]);
    }
  }

  lemma SameEntries(schema: Schema, kind: Kind, members: seq<Member>, a: map<MapKey, Value>, b: map<MapKey, Value>)
    requires KeysFrom(members, a) && KeysFrom(members, b)
    requires forall i :: 0 <= i < |members| ==> Holds(schema, kind, members[i], a) && Holds(schema, kind, members[i], b)
    ensures a == b
  {
    hide ToScalar;
    assert a.Keys == b.Keys;
  }

  // ---------------------------------------------------------------- type soundness

  predicate EnumsFit(schema: Schema) {
    forall name, text :: name in schema.enums && text in schema.enums[name] ==> -TWO31 <= schema.enums[name][text] < TWO31
  }

  predicate LeafHasKind(v: Value, kind: Kind) {
    match kind
    case Double => v.F64?
    case Float => v.F32?
    case Int32 | Sint32 | Sfixed32 => v.I32? && -TWO31 <= v.i < TWO31
    case Int64 | Sint64 | Sfixed64 => v.I64? && -TWO63 <= v.l < TWO63
    case Uint32 | Fixed32 => v.U32? && 0 <= v.u < TWO32
    case Uint64 | Fixed64 => v.U64? && 0 <= v.w < TWO64
    case Bool => v.Flag?
    case String => v.Str?
    case Bytes => v.Blob?
    case Enum(_) => v.EnumNumber? && -TWO31 <= v.number < TWO31
    case Message(_) => false
  }

  predicate KeyHasKind(key: MapKey, kind: Kind) {
    match key
    case BoolKey(_) => kind.Bool?
    case I32Key(i) => IsSigned32(kind) && -TWO31 <= i < TWO31
    case I64Key(l) => IsSigned64(kind) && -TWO63 <= l < TWO63
    case U32Key(u) => IsUnsigned32(kind) && 0 <= u < TWO32
    case U64Key(w) => IsUnsigned64(kind) && 0 <= w < TWO64
    case StringKey(_) => kind.String?
  }

  /** `v` may stand in a field of the kind: the right variant and width or, for a message, one
      with declared fields only, each of its declared type, and one member of a oneof at most. */
  predicate HasKind(schema: Schema, v: Value, kind: Kind)
    decreases v, 0
  {
    if !kind.Message? then LeafHasKind(v, kind)
    else
      && v.Record? && v.name == kind.messageName
      && (forall k :: k in v.fields ==> k in FieldsOf(schema, v.name))
      && (forall k :: k in v.fields && k in FieldsOf(schema, v.name) ==> HasType(schema, v.fields[k], FieldsOf(schema, v.name)[k]))
      && OneofsHold(FieldsOf(schema, v.name), v.fields)
  }

  predicate OneofsHold(declared: map<string, Field>, fields: map<string, Value>) {
    forall k, l :: k in fields && l in fields && k in declared && l in declared && k != l ==> !Rivals(declared[k], declared[l])
  }

  predicate HasType(schema: Schema, v: Value, field: Field)
    decreases v, 1
  {
    match field.cardinality
    case Singular => HasKind(schema, v, field.kind)
    case List => v.Items? && forall i :: 0 <= i < |v.items| ==> HasKind(schema, v.items[i], field.kind)
    case MapField =>
      && v.Entries? && field.kind.Message?
      && var entry := FieldsOf(schema, field.kind.messageName);
      && "key" in entry && "value" in entry
      && forall k :: k in v.entries ==> KeyHasKind(k, entry["key"].kind) && HasKind(schema, v.entries[k], entry["value"].kind)
  }

  lemma LeafSound(schema: Schema, kind: Kind, json: Json)
    requires EnumsFit(schema) && !kind.Message? && Leaf(schema, kind, json).Ok?
    ensures LeafHasKind(Leaf(schema, kind, json).value, kind)
  {
    if kind.Enum? && json.Text? {
      assert kind.enumName in schema.enums;
    }
  }

  /** Whatever the schema, a translation that succeeds has the declared kind. */
  lemma {:induction false} ScalarSound(schema: Schema, kind: Kind, json: Json)
    requires EnumsFit(schema) && ToScalar(schema, kind, json).Ok?
    ensures HasKind(schema, ToScalar(schema, kind, json).value, kind)
    decreases json, 0
  {
    if kind.Message? {
      FilledSound(schema, kind.messageName, json.members);
    } else {
      LeafSound(schema, kind, json);
    }
  }

  predicate FieldsHaveTypes(schema: Schema, declared: map<string, Field>, fields: map<string, Value>) {
    && (forall k :: k in fields ==> k in declared)
    && (forall k :: k in fields && k in declared ==> HasType(schema, fields[k], declared[k]))
    && OneofsHold(declared, fields)
  }

  lemma SetFieldSound(schema: Schema, declared: map<string, Field>, fields: map<string, Value>, key: string, v: Value)
    requires FieldsHaveTypes(schema, declared, fields) && key in declared && HasType(schema, v, declared[key])
    ensures FieldsHaveTypes(schema, declared, SetField(declared, fields, key, v))
  {
  }

  lemma {:induction false} FilledSound(schema: Schema, name: string, members: seq<Member>)
    requires EnumsFit(schema) && Filled(schema, name, members).Ok?
    ensures FieldsHaveTypes(schema, FieldsOf(schema, name), Filled(schema, name, members).value)
    decreases members, 2
  {
    if members != [] {
      var declared, n := FieldsOf(schema, name), |members| - 1;
      FilledSound(schema, name, members[..n]);
      if members[n].key in declared {
        FieldSound(schema, declared[members[n].key], members[n].value);
        SetFieldSound(schema, declared, Filled(schema, name, members[..n]).value, members[n].key,
                      ToField(schema, declared[members[n].key], members[n].value).value);
      }
    }
  }

  /** The same for a whole field: every value handed to `set_field` suits its field. */
  lemma {:induction false} FieldSound(schema: Schema, field: Field, json: Json)
    requires EnumsFit(schema) && ToField(schema, field, json).Ok?
    ensures HasType(schema, ToField(schema, field, json).value, field)
    decreases json, 1
  {
    match field.cardinality
    case Singular =>
      ScalarSound(schema, field.kind, json);
    case List =>
      ListElements(schema, field.kind, json.items);
      forall i | 0 <= i < |json.items|
        ensures HasKind(schema, ListOf(schema, field.kind, json.items).value[i], field.kind)
      {
        ScalarSound(schema, field.kind, json.items[i]);
      }
    case MapField =>
      var entry := FieldsOf(schema, field.kind.messageName);
      MapSound(schema, entry["key"].kind, entry["value"].kind, json.members);
  }

  lemma {:induction false} MapSound(schema: Schema, keyKind: Kind, valueKind: Kind, members: seq<Member>)
    requires EnumsFit(schema) && MapOf(schema, keyKind, valueKind, members).Ok?
    ensures forall k :: k in MapOf(schema, keyKind, valueKind, members).value ==>
              KeyHasKind(k, keyKind) && HasKind(schema, MapOf(schema, keyKind, valueKind, members).value[k], valueKind)
    decreases members, 2
  {
    hide KeyValue, AddEntry, ToScalar, HasKind, KeyHasKind;
    if members != [] {
      var front, last := MapOf(schema, keyKind, valueKind, members[..|members| - 1]), members[|members| - 1];
      MapSound(schema, keyKind, valueKind, members[..|members| - 1]);
      ScalarSound(schema, valueKind, last.value);
      EntrySound(schema, keyKind, front.value, last.key, ToScalar(schema, valueKind, last.value).value);
    }
  }

  /** An entry added for a JSON key has a key of the declared kind, if it is added at all. */
  lemma EntrySound(schema: Schema, keyKind: Kind, entries: map<MapKey, Value>, key: string, value: Value)
    requires EnumsFit(schema) && KeyValue(schema, keyKind, key).Ok?
    ensures var k := KeyValue(schema, keyKind, key).value;
            AddEntry(entries, k, value) == entries ||
            exists added :: KeyHasKind(added, keyKind) && AddEntry(entries, k, value) == entries[added := value]
  {
    LeafSound(schema, keyKind, Text(key));
    if keyKind == String {
      assert KeyHasKind(StringKey(key), keyKind);
    }
  }

  // ---------------------------------------------------------------- numbers

  /** A 32-bit field keeps an integer if it is in range; otherwise it silently keeps another
      one, in range and equal to it modulo 2^32. */
  lemma NarrowedIff(schema: Schema, kind: Kind, n: JsonInt)
    requires IsSigned32(kind) || IsUnsigned32(kind)
    requires LeafFits(schema, kind, Integer(n))
    ensures var v := ToScalar(schema, kind, Integer(n)).value;
            var kept := if IsSigned32(kind) then v.i else v.u;
            && (kept - n) % 0x1_0000_0000 == 0
            && (if IsSigned32(kind) then -0x8000_0000 <= kept < 0x8000_0000 else 0 <= kept < 0x1_0000_0000)
            && (kept == n <==> if IsSigned32(kind) then -0x8000_0000 <= n < 0x8000_0000 else n < 0x1_0000_0000)
  {
    assert IsSigned32(kind) ==> n == (n + TWO31) / TWO32 * TWO32 + AsI32(n);
    assert IsUnsigned32(kind) ==> n == n / TWO32 * TWO32 + AsU32(n);
  }

  /** Other leaves come through as they are: numbers exactly, booleans and text unchanged, bytes as
      decoded, and enum names with their numbers. */
  lemma LeavesKept(schema: Schema, n: JsonInt, x: real, flag: bool, text: string, name: string)
    ensures ToScalar(schema, Double, Integer(n)) == Ok(F64(n as real)) && ToScalar(schema, Double, Fraction(x)) == Ok(F64(x))
    ensures ToScalar(schema, Float, Integer(n)) == Ok(F32(n as real)) && ToScalar(schema, Float, Fraction(x)) == Ok(F32(x))
    ensures ToScalar(schema, Bool, Boolean(flag)) == Ok(Flag(flag)) && ToScalar(schema, String, Text(text)) == Ok(Str(text))
    ensures schema.base64(text).Some? ==> ToScalar(schema, Bytes, Text(text)) == Ok(Blob(schema.base64(text).value))
    ensures name in schema.enums && text in schema.enums[name] ==>
              ToScalar(schema, Enum(name), Text(text)) == Ok(EnumNumber(schema.enums[name][text]))
  {
  }

  /** An enum given by number is narrowed like a 32-bit field. */
  lemma EnumNumberIs(schema: Schema, name: string, n: JsonInt)
    requires n < 0x8000_0000_0000_0000
    ensures var v := ToScalar(schema, Enum(name), Integer(n));
            && v.Ok? && v.value.EnumNumber? && (v.value.number - n) % 0x1_0000_0000 == 0
            && -0x8000_0000 <= v.value.number < 0x8000_0000
  {
    Residue(n);
  }

  /** Which integers a field of an integer kind takes, and that a 64-bit one keeps them. */
  lemma IntegersTaken(schema: Schema, kind: Kind, n: JsonInt)
    ensures IsSigned32(kind) || IsSigned64(kind) || kind.Enum? ==> (ToScalar(schema, kind, Integer(n)).Ok? <==> n < 0x8000_0000_0000_0000)
    ensures IsUnsigned32(kind) || IsUnsigned64(kind) ==> (ToScalar(schema, kind, Integer(n)).Ok? <==> n >= 0)
    ensures IsSigned64(kind) && n < 0x8000_0000_0000_0000 ==> ToScalar(schema, kind, Integer(n)) == Ok(I64(n))
    ensures IsUnsigned64(kind) && n >= 0 ==> ToScalar(schema, kind, Integer(n)) == Ok(U64(n))
  {
  }

  // ---------------------------------------------------------------- unknown keys

  /** The JSON without keys the schema does not declare, at any depth. */
  function PruneScalar(schema: Schema, kind: Kind, json: Json): Json
    decreases json, 0
  {
    if kind.Message? && json.Object? then Object(PruneMembers(schema, FieldsOf(schema, kind.messageName), json.members)) else json
  }

  function PruneMembers(schema: Schema, declared: map<string, Field>, members: seq<Member>): seq<Member>
    decreases members, 2
  {
    if members == [] then []
    else
      var front, last := PruneMembers(schema, declared, members[..|members| - 1]), members[|members| - 1];
      if last.key !in declared then front else front + [Member(last.key, PruneField(schema, declared[last.key], last.value))]
  }

  function PruneField(schema: Schema, field: Field, json: Json): Json
    decreases json, 1
  {
    match field.cardinality
    case Singular => PruneScalar(schema, field.kind, json)
    case List =>
      if json.Array? then Array(seq(|json.items|, i requires 0 <= i < |json.items| => PruneScalar(schema, field.kind, json.items[i])))
      else json
    case MapField =>
      if json.Object? && field.kind.Message? && "value" in FieldsOf(schema, field.kind.messageName) then
        var kind := FieldsOf(schema, field.kind.messageName)["value"].kind;
        Object(seq(|json.members|, i requires 0 <= i < |json.members| =>
          Member(json.members[i].key, PruneScalar(schema, kind, json.members[i].value))))
      else json
  }

  /** Undeclared keys, wherever they are, change neither the value nor the error. */
  lemma {:induction false} UnknownKeysIgnored(schema: Schema, kind: Kind, json: Json)
    ensures ToScalar(schema, kind, PruneScalar(schema, kind, json)) == ToScalar(schema, kind, json)
    decreases json, 0
  {
    if kind.Message? && json.Object? {
      UnknownMembersIgnored(schema, kind.messageName, json.members);
    }
  }

  lemma {:induction false} UnknownMembersIgnored(schema: Schema, name: string, members: seq<Member>)
    ensures Filled(schema, name, PruneMembers(schema, FieldsOf(schema, name), members)) == Filled(schema, name, members)
    decreases members, 2
  {
    if members != [] {
      var declared, n := FieldsOf(schema, name), |members| - 1;
      UnknownMembersIgnored(schema, name, members[..n]);
      if members[n].key in declared {
        UnknownInFieldIgnored(schema, declared[members[n].key], members[n].value);
        var kept := PruneMembers(schema, declared, members);
        assert kept[..|kept| - 1] == PruneMembers(schema, declared, members[..n]);
      }
    }
  }

  lemma {:induction false} UnknownInFieldIgnored(schema: Schema, field: Field, json: Json)
    ensures ToField(schema, field, PruneField(schema, field, json)) == ToField(schema, field, json)
    decreases json, 1
  {
    match field.cardinality
    case Singular =>
      UnknownKeysIgnored(schema, field.kind, json);
    case List =>
      if json.Array? {
        forall i | 0 <= i < |json.items|
          ensures ToScalar(schema, field.kind, PruneScalar(schema, field.kind, json.items[i])) == ToScalar(schema, field.kind, json.items[i])
        {
          UnknownKeysIgnored(schema, field.kind, json.items[i]);
        }
        SameList(schema, field.kind, PruneField(schema, field, json).items, json.items);
      }
    case MapField =>
      if json.Object? && field.kind.Message? && "value" in FieldsOf(schema, field.kind.messageName) {
        var entry := FieldsOf(schema, field.kind.messageName);
        var kind := entry["value"].kind;
        forall i | 0 <= i < |json.members|
          ensures ToScalar(schema, kind, PruneScalar(schema, kind, json.members[i].value)) == ToScalar(schema, kind, json.members[i].value)
        {
          UnknownKeysIgnored(schema, kind, json.members[i].value);
        }
        if "key" in entry {
          SameMap(schema, entry["key"].kind, kind, PruneField(schema, field, json).members, json.members);
        }
      }
  }

  lemma {:induction false} SameList(schema: Schema, kind: Kind, xs: seq<Json>, ys: seq<Json>)
    requires |xs| == |ys| && forall i :: 0 <= i < |xs| ==> ToScalar(schema, kind, xs[i]) == ToScalar(schema, kind, ys[i])
    ensures ListOf(schema, kind, xs) == ListOf(schema, kind, ys)
    decreases |xs|
  {
    hide ToScalar;
    if xs != [] {
      var n := |xs| - 1;
      forall i | 0 <= i < n ensures ToScalar(schema, kind, xs[..n][i]) == ToScalar(schema, kind, ys[..n][i]) {
        assert xs[..n][i] == xs[i] && ys[..n][i] == ys[i];
      }
      SameList(schema, kind, xs[..n], ys[..n]);
    }
  }

  lemma {:induction false} SameMap(schema: Schema, keyKind: Kind, valueKind: Kind, xs: seq<Member>, ys: seq<Member>)
    requires |xs| == |ys| && forall i :: 0 <= i < |xs| ==> xs[i].key == ys[i].key
    requires forall i :: 0 <= i < |xs| ==> ToScalar(schema, valueKind, xs[i].value) == ToScalar(schema, valueKind, ys[i].value)
    ensures MapOf(schema, keyKind, valueKind, xs) == MapOf(schema, keyKind, valueKind, ys)
    decreases |xs|
  {
    hide *;
    if xs == [] {
      assert xs == ys;
    } else {
      var n := |xs| - 1;
      forall i | 0 <= i < n
        ensures xs[..n][i].key == ys[..n][i].key
        ensures ToScalar(schema, valueKind, xs[..n][i].value) == ToScalar(schema, valueKind, ys[..n][i].value)
      {
        assert xs[..n][i] == xs[i] && ys[..n][i] == ys[i];
      }
      SameMap(schema, keyKind, valueKind, xs[..n], ys[..n]);
      MapStep(schema, keyKind, valueKind, xs, n);
      MapStep(schema, keyKind, valueKind, ys, n);
      assert xs[..n + 1] == xs && ys[..n + 1] == ys;
    }
  }

  /** Pruning does remove an undeclared key, whatever it holds. */
  lemma {:induction false} PruneDropsUnknown(schema: Schema, declared: map<string, Field>, before: seq<Member>, unknown: Member, after: seq<Member>)
    requires unknown.key !in declared
    ensures PruneMembers(schema, declared, before + [unknown] + after) == PruneMembers(schema, declared, before + after)
    decreases |after|
  {
    if after == [] {
      assert before + [unknown] + after == before + [unknown];
      assert (before + [unknown])[..|before|] == before && before + after == before;
    } else {
      var n := |after| - 1;
      PruneDropsUnknown(schema, declared, before, unknown, after[..n]);
      var long, short := before + [unknown] + after, before + after;
      assert long[..|long| - 1] == before + [unknown] + after[..n] && short[..|short| - 1] == before + after[..n];
      assert long[|long| - 1] == after[n] == short[|short| - 1];
    }
  }
}
