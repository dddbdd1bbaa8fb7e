/**
 * The plain values `json.load` produces and `json.dump` consumes: dicts with
 * string keys, lists, strings, numbers, booleans and None.
 */
module JsonValue {

  datatype JVal =
    | JObj(obj: map<string, JVal>)
    | JArr(arr: seq<JVal>)
    | JStr(str: string)
    | JNum(num: real)
    | JBool(b: bool)
    | JNull
}
