/** JSON values, and the text functions over them that the program takes from its runtime. */
module Json {
  import opened Prelude

  datatype Json =
    | Null
    | Bool(b: bool)
    | Num(n: int)
    | Str(s: string)
    | Arr(items: seq<Json>)
    | Obj(fields: map<string, Json>)

  /** json.dumps, json.loads and str(). */
  datatype Codec = Codec(dumps: Json -> string, loads: string -> Option<Json>, show: Json -> string)

  /** Parsing a dumped value gives it back. */
  ghost predicate Faithful(c: Codec) {
    forall v :: c.loads(c.dumps(v)) == Some(v)
  }
}
