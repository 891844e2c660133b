/**
  Converting JSON to protobuf's Struct and back. A JSON number is an integer or a finite double; a Struct
  only has doubles. How an integer is rounded to one is handed in.
*/
module StructConversion {
  import opened Wrappers

  datatype Number = Integer(i: int) | Double(x: real)

  datatype Json =
    | Null
    | Bool(b: bool)
    | Num(n: Number)
    | Str(s: string)
    | Arr(items: seq<Json>)
    | Obj(members: map<string, Json>)

  datatype F64 = Finite(x: real) | NotFinite

  datatype Kind =
    | NullValue(tag: int)
    | NumberValue(x: F64)
    | StringValue(s: string)
    | BoolValue(b: bool)
    | ListValue(values: seq<Value>)
    | StructValue(fields: map<string, Value>)

  datatype Value = Value(kind: Option<Kind>)

  type Rounding = int -> real

  function AsF64(n: Number, round: Rounding): real {
    match n case Integer(i) => round(i) case Double(x) => x
  }

  // ---- JSON to Struct ----

  function JsonToValue(j: Json, round: Rounding): Option<Value>
    decreases j, 1
  {
    var kind := match j
      case Null => NullValue(0)
      case Bool(b) => BoolValue(b)
      case Num(n) => NumberValue(Finite(AsF64(n, round)))
      case Str(s) => StringValue(s)
      case Arr(items) => ListValue(JsonToList(items, round))
      case Obj(members) => StructValue(
        map k | k in members && JsonToValue(members[k], round).Some? :: JsonToValue(members[k], round).value);
    Some(Value(Some(kind)))
  }

  /** Keeps what converts. */
  function JsonToList(items: seq<Json>, round: Rounding): seq<Value>
    decreases items, 0
  {
    if items == [] then []
    else
      var v := JsonToValue(items[0], round);
      (if v.Some? then [v.value] else []) + JsonToList(items[1..], round)
  }

  function JsonToStruct(j: Json, round: Rounding): Option<map<string, Value>> {
    match j
    case Obj(members) => Some(
      map k | k in members && JsonToValue(members[k], round).Some? :: JsonToValue(members[k], round).value)
    case _ => None
  }

  // ---- Struct to JSON ----

  function ValueToJson(v: Value): Json
    decreases v, 1
  {
    match v.kind
    case None => Null
    case Some(kind) =>
      match kind
      case NullValue(_) => Null
      case NumberValue(x) => (match x case Finite(r) => Num(Double(r)) case NotFinite => Null)
      case StringValue(s) => Str(s)
      case BoolValue(b) => Bool(b)
      case ListValue(values) => Arr(ListToJson(values))
      case StructValue(fields) => Obj(map k | k in fields :: ValueToJson(fields[k]))
  }

  function ListToJson(values: seq<Value>): seq<Json>
    decreases values, 0
  {
    if values == [] then [] else [ValueToJson(values[0])] + ListToJson(values[1..])
  }

  function StructToJson(fields: map<string, Value>): Json {
    Obj(map k | k in fields :: ValueToJson(fields[k]))
  }

  method ProstStructToJson(fields: map<string, Value>) returns (j: Json)
    ensures j == StructToJson(fields)
  {
    var members: map<string, Json> := map[];
    var left := fields.Keys;
    while left != {}
      invariant left <= fields.Keys
      invariant members == map k | k in fields && k !in left :: ValueToJson(fields[k])
      decreases |left|
    {
      var k :| k in left;
      members := members[k := ValueToJson(fields[k])];
      left := left - {k};
    }
    return Obj(members);
  }

  // ---- there and back ----

  /** The same document with every number replaced by its double, at every depth. */
  function DoubleImage(j: Json, round: Rounding): Json
    decreases j, 1
  {
    match j
    case Num(n) => Num(Double(AsF64(n, round)))
    case Arr(items) => Arr(DoubleImages(items, round))
    case Obj(members) => Obj(map k | k in members :: DoubleImage(members[k], round))
    case _ => j
  }

  function DoubleImages(items: seq<Json>, round: Rounding): seq<Json>
    decreases items, 0
  {
    if items == [] then [] else [DoubleImage(items[0], round)] + DoubleImages(items[1..], round)
  }

  lemma {:induction false} ValueRoundTrip(j: Json, round: Rounding)
    ensures ValueToJson(JsonToValue(j, round).value) == DoubleImage(j, round)
    decreases j, 1
  {
    match j
    case Arr(items) => ListRoundTrip(items, round);
    case Obj(members) =>
      forall k | k in members
        ensures ValueToJson(JsonToValue(members[k], round).value) == DoubleImage(members[k], round)
      {
        ValueRoundTrip(members[k], round);
      }
    case _ =>
  }

  lemma {:induction false} ListRoundTrip(items: seq<Json>, round: Rounding)
    ensures ListToJson(JsonToList(items, round)) == DoubleImages(items, round)
    decreases items, 0
  {
    if items != [] {
      ValueRoundTrip(items[0], round);
      ListRoundTrip(items[1..], round);
      var v := JsonToValue(items[0], round).value;
      assert JsonToList(items, round) == [v] + JsonToList(items[1..], round);
      assert ([v] + JsonToList(items[1..], round))[1..] == JsonToList(items[1..], round);
    }
  }

  /** A JSON object survives the trip through a Struct, but for its numbers becoming doubles; nothing else converts. */
  lemma StructRoundTrip(j: Json, round: Rounding)
    ensures JsonToStruct(j, round).Some? <==> j.Obj?
    ensures j.Obj? ==> StructToJson(JsonToStruct(j, round).value) == DoubleImage(j, round)
  {
    if j.Obj? {
      ValueRoundTrip(j, round);
      assert JsonToValue(j, round).value == Value(Some(StructValue(JsonToStruct(j, round).value)));
    }
  }

  lemma {:induction false} ImageIsStable(j: Json, round: Rounding)
    ensures DoubleImage(DoubleImage(j, round), round) == DoubleImage(j, round)
    decreases j, 1
  {
    match j
    case Arr(items) => ImagesAreStable(items, round);
    case Obj(members) =>
      forall k | k in members
        ensures DoubleImage(DoubleImage(members[k], round), round) == DoubleImage(members[k], round)
      {
        ImageIsStable(members[k], round);
      }
    case _ =>
  }

  lemma {:induction false} ImagesAreStable(items: seq<Json>, round: Rounding)
    ensures DoubleImages(DoubleImages(items, round), round) == DoubleImages(items, round)
    decreases items, 0
  {
    if items != [] {
      ImageIsStable(items[0], round);
      ImagesAreStable(items[1..], round);
      assert DoubleImages(items, round)[1..] == DoubleImages(items[1..], round);
    }
  }

  /** A second round trip changes nothing. */
  lemma SecondTripIsIdentity(j: Json, round: Rounding)
    requires j.Obj?
    ensures var once := StructToJson(JsonToStruct(j, round).value);
            && once.Obj? && StructToJson(JsonToStruct(once, round).value) == once
  {
    StructRoundTrip(j, round);
    StructRoundTrip(DoubleImage(j, round), round);
    ImageIsStable(j, round);
  }

  // ---- starting from a Struct ----

  /** A value with a kind everywhere, null written as 0 and no infinite or undefined number. */
  predicate Canonical(v: Value)
    decreases v, 1
  {
    && v.kind.Some?
    && match v.kind.value
       case NullValue(tag) => tag == 0
       case NumberValue(x) => x.Finite?
       case ListValue(values) => forall i :: 0 <= i < |values| ==> Canonical(values[i])
       case StructValue(fields) => forall k :: k in fields ==> Canonical(fields[k])
       case _ => true
  }

  /** Going through JSON gives a value back exactly when it is canonical, whatever the rounding. */
  lemma {:induction false} CanonicalIffPreserved(v: Value, round: Rounding)
    ensures JsonToValue(ValueToJson(v), round) == Some(v) <==> Canonical(v)
    decreases v, 1
  {
    if v.kind.Some? {
      match v.kind.value
      case ListValue(values) =>
        forall i | 0 <= i < |values|
          ensures JsonToValue(ValueToJson(values[i]), round) == Some(values[i]) <==> Canonical(values[i])
        {
          CanonicalIffPreserved(values[i], round);
        }
        ListPreserved(values, round);
      case StructValue(fields) =>
        forall k | k in fields
          ensures JsonToValue(ValueToJson(fields[k]), round) == Some(fields[k]) <==> Canonical(fields[k])
        {
          CanonicalIffPreserved(fields[k], round);
        }
        StructPreserved(fields, round);
      case _ =>
    }
  }

  lemma {:induction false} ListPreserved(values: seq<Value>, round: Rounding)
    ensures JsonToList(ListToJson(values), round) == values <==>
            forall i :: 0 <= i < |values| ==> JsonToValue(ValueToJson(values[i]), round) == Some(values[i])
    ensures |JsonToList(ListToJson(values), round)| == |values|
    decreases |values|
  {
    if values != [] {
      ListPreserved(values[1..], round);
      var back, rest := JsonToList(ListToJson(values), round), JsonToList(ListToJson(values[1..]), round);
      assert ListToJson(values)[1..] == ListToJson(values[1..]);
      assert back == [JsonToValue(ValueToJson(values[0]), round).value] + rest;
      assert values == [values[0]] + values[1..];
      assert back == values <==> back[0] == values[0] && rest == values[1..];
      assert forall i :: 1 <= i < |values| ==> values[i] == values[1..][i - 1];
      assert forall i :: 0 <= i < |values| - 1 ==> values[1..][i] == values[i + 1];
    }
  }

  lemma StructPreserved(fields: map<string, Value>, round: Rounding)
    ensures JsonToStruct(StructToJson(fields), round) == Some(fields) <==>
            forall k :: k in fields ==> JsonToValue(ValueToJson(fields[k]), round) == Some(fields[k])
  {
    var back := JsonToStruct(StructToJson(fields), round).value;
    assert back.Keys == fields.Keys;
    assert forall k :: k in fields ==> back[k] == JsonToValue(ValueToJson(fields[k]), round).value;
    if back != fields {
      var k :| k in fields && back[k] != fields[k];
    }
  }

  // ---- neither way changes what kind of thing a value is, or what it says ----

  /** A JSON value becomes the Struct value of its kind, with the same contents. */
  lemma KindsAreKept(j: Json, round: Rounding)
    ensures JsonToValue(j, round).Some? && JsonToValue(j, round).value.kind.Some?
    ensures var k := JsonToValue(j, round).value.kind.value;
            && (j.Null? ==> k == NullValue(0))
            && (j.Bool? ==> k == BoolValue(j.b))
            && (j.Str? ==> k == StringValue(j.s))
            && (j.Num? ==> k == NumberValue(Finite(if j.n.Integer? then round(j.n.i) else j.n.x)))
            && (j.Arr? ==> k.ListValue? && |k.values| == |j.items|
                           && forall i :: 0 <= i < |j.items| ==> Some(k.values[i]) == JsonToValue(j.items[i], round))
            && (j.Obj? ==> k.StructValue? && k.fields.Keys == j.members.Keys
                           && forall n :: n in j.members ==> Some(k.fields[n]) == JsonToValue(j.members[n], round))
  {
    if j.Arr? { ListIsConverted(j.items, round); }
  }

  lemma {:induction false} ListIsConverted(items: seq<Json>, round: Rounding)
    ensures |JsonToList(items, round)| == |items|
    ensures forall i :: 0 <= i < |items| ==> Some(JsonToList(items, round)[i]) == JsonToValue(items[i], round)
  {
    if items != [] {
      ListIsConverted(items[1..], round);
      var v, rest := JsonToValue(items[0], round).value, JsonToList(items[1..], round);
      assert JsonToList(items, round) == [v] + rest;
      assert forall i :: 0 < i < |items| ==> items[i] == items[1..][i - 1];
    }
  }
}
