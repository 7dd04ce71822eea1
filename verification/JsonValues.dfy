/** The JSON values the program passes around, with `serde_json` indexing. */
module JsonValues {
  import opened Wrappers

  const U64_LIMIT := 0x1_0000_0000_0000_0000

  datatype Json =
    | Null
    | Bool(b: bool)
    | Num(n: int)
    | Str(s: string)
    | Arr(a: seq<Json>)
    | Obj(o: map<string, Json>)

  // Indexing a missing key, or a value that is no object, yields null.
  function Get(j: Json, key: string): Json {
    if j.Obj? && key in j.o then j.o[key] else Null
  }

  function AsStr(j: Json): Option<string> {
    if j.Str? then Some(j.s) else None
  }

  function AsU64(j: Json): Option<nat> {
    if j.Num? && 0 <= j.n < U64_LIMIT then Some(j.n) else None
  }

  function StrOr(j: Json, default: string): string {
    if j.Str? then j.s else default
  }
}
