/** The JSON values that Python dictionaries of the detector are stored as. Object members keep
    their insertion order, as Python dictionaries do. */
module JsonValues {
  import opened Options
  import opened Dicts

  datatype Json =
    | JNull
    | JBool(b: bool)
    | JInt(i: int)
    | JReal(r: real)
    | JStr(s: string)
    | JArr(items: seq<Json>)
    | JObj(members: Dict<Json>)

  /** `d.get(key)` on an object's members. */
  function Get(members: Dict<Json>, key: string): Option<Json> {
    Lookup(members, key)
  }
}
