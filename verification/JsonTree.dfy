/** JSON values.  Numbers are opaque: only their identity matters here. */
module JsonTree {

  datatype Json =
    | Null
    | Bool(b: bool)
    | Number(n: int)
    | Text(s: string)
    | List(items: seq<Json>)
    | Object(members: map<string, Json>)
}
