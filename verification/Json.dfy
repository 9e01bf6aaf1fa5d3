/** Parsed JSON values. An object keeps its fields as a sorted map iterates them. */
module Json {
  import opened Common

  datatype Field = Field(key: string, value: Json)

  datatype Json =
    | JNull
    | JBool(b: bool)
    | JInt(n: int)
    | JFloat(text: string)
    | JStr(s: string)
    | JArr(items: seq<Json>)
    | JObj(fields: seq<Field>)

  /** `map.get(key)` */
  function Find(fields: seq<Field>, key: string): (r: Option<Json>)
  {
    if fields == [] then None
    else if fields[0].key == key then Some(fields[0].value)
    else Find(fields[1..], key)
  }

  /** `value.get(key)`: `None` for anything but an object. */
  function Get(j: Json, key: string): (r: Option<Json>)
  {
    if j.JObj? then Find(j.fields, key) else None
  }

  function AsStr(j: Option<Json>): (r: Option<string>)
  {
    if j.Some? && j.value.JStr? then Some(j.value.s) else None
  }

  /** `Json::as_u64` */
  function AsU64(j: Option<Json>): (r: Option<nat>)
  {
    if j.Some? && j.value.JInt? && 0 <= j.value.n < 0x1_0000_0000_0000_0000 then Some(j.value.n) else None
  }

  lemma {:induction false} FindAt(fields: seq<Field>, i: nat, key: string)
    requires i < |fields| && fields[i].key == key
    requires forall j :: 0 <= j < i ==> fields[j].key != key
    ensures Find(fields, key) == Some(fields[i].value)
  {
    if i > 0 {
      FindAt(fields[1..], i - 1, key);
    }
  }

  lemma {:induction false} FindMissing(fields: seq<Field>, key: string)
    requires forall j :: 0 <= j < |fields| ==> fields[j].key != key
    ensures Find(fields, key) == None
  {
    if fields != [] {
      FindMissing(fields[1..], key);
    }
  }
}
