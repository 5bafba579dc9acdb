/** Decoded JSON values, as `response.json()` hands them to the client:
    objects become dicts, arrays lists, and so on. Numbers are integers
    only; the payload fields the client reads are all integers or text. */
module Json {

  datatype Value =
    | Null
    | Bool(b: bool)
    | Num(n: int)
    | Str(s: string)
    | Arr(items: seq<Value>)
    | Obj(fields: map<string, Value>)
}
