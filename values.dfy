/** The `object` values a request parameter can hold. */
module Values {
  import opened Json

  datatype Value =
    | VNull                      // null
    | VString(s: string)         // string
    | VBool(b: bool)             // bool
    | VInt(i: int)               // int / long
    | VDate(seconds: int)        // DateTime, whole seconds since 0001-01-01
    | VStrings(items: seq<string>) // any IEnumerable<string>
    | VStream(handle: nat)       // a Stream, by identity
    | VToken(token: Json)        // a JToken passed as-is
    | VOther(source: Json)       // a double, Guid, Uri or TimeSpan read from this token
}
