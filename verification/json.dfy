/**
 * The JSON values the preprocessing scripts write and read back: `None`,
 * numbers, strings, lists and objects (objects keep their key order).
 */
module JsonData {
  datatype Json =
    | JNull
    | JNum(n: real)
    | JStr(s: string)
    | JArr(items: seq<Json>)
    | JObj(fields: seq<(string, Json)>)
}
