/** JSON values. An object's fields keep their order, and a key is there once. */
module Json {
  import opened Wrappers

  datatype Json =
    | Null
    | Bool(b: bool)
    | Number(n: int)
    | Str(s: string)
    | Arr(items: seq<Json>)
    | Obj(fields: seq<(string, Json)>)

  /** Whether the first field named `key` holds `value`. */
  predicate IsField(fields: seq<(string, Json)>, key: string, value: Json) {
    exists i :: 0 <= i < |fields| && fields[i] == (key, value) && forall j | 0 <= j < i :: fields[j].0 != key
  }

  /** What the first field named `key` holds. */
  function Get(fields: seq<(string, Json)>, key: string): (r: Option<Json>)
    ensures r.Some? <==> exists i :: 0 <= i < |fields| && fields[i].0 == key
    ensures r.Some? ==> IsField(fields, key, r.value)
  {
    if fields == [] then None
    else if fields[0].0 == key then
      assert fields[0] == (key, fields[0].1);
      Some(fields[0].1)
    else
      var r := Get(fields[1..], key);
      assert r.Some? ==> IsField(fields, key, r.value) by {
        if r.Some? {
          var i :| 0 <= i < |fields[1..]| && fields[1..][i] == (key, r.value)
                   && forall j | 0 <= j < i :: fields[1..][j].0 != key;
          assert fields[i + 1] == (key, r.value);
          assert forall j | 0 <= j < i + 1 :: fields[j].0 != key;
        }
      }
      r
  }
}
