/** JSON values as the serializer and the artifact checker see them. An object
    is a finite map; the order in which a program walks its members is not part
    of the value, so every walk takes it as a parameter (`KeyOrder`). */
module JsonTree {
  import opened Common

  datatype Json =
    | Null
    | Bool(b: bool)
    | Num(n: int)
    | Real(r: real)
    | Str(s: string)
    | Arr(items: seq<Json>)
    | Obj(members: map<string, Json>)

  const KEY_TYPE := "$type"
  const KEY_ID := "$id"
  const KEY_REF := "$ref"

  /** `ord` lists the members of every object, each exactly once. */
  ghost predicate KeyOrder(ord: set<string> -> seq<string>) {
    forall keys: set<string> {:trigger ord(keys)} ::
      NoDup(ord(keys)) && forall k :: k in ord(keys) <==> k in keys
  }

  /** The member of an object, or nothing (also for values that are not objects). */
  function Get(j: Json, key: string): (r: Option<Json>)
    ensures r.Some? ==> r.value < j
  {
    if j.Obj? && key in j.members then Some(j.members[key]) else None
  }

  function AsStr(j: Json): Option<string> {
    if j.Str? then Some(j.s) else None
  }

  function GetStr(j: Json, key: string): Option<string> {
    match Get(j, key)
    case None => None
    case Some(v) => AsStr(v)
  }
}
