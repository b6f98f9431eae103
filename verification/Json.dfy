/** JSON values as the adapters exchange them with disk and with model back ends. */
module JsonValues {
  import opened Wrappers

  /** Object members keep the order in which they are written; numbers keep their literal text. */
  datatype Json =
    | Null
    | Bool(value: bool)
    | Number(literal: string)
    | Str(text: string)
    | Array(items: seq<Json>)
    | Object(fields: seq<Member>)
  {
    /** The member called `key`, if this is an object that has one. */
    function Get(key: string): Option<Json> {
      if Object? then Lookup(fields, key) else None
    }

    /** Indexing by key: absent members read as null. */
    function At(key: string): Json {
      match Get(key)
      case Some(v) => v
      case None => Null
    }
  }

  datatype Member = Member(key: string, value: Json)

  function Lookup(fields: seq<Member>, key: string): Option<Json> {
    if fields == [] then None
    else if fields[0].key == key then Some(fields[0].value)
    else Lookup(fields[1..], key)
  }
}
