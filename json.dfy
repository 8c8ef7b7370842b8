/**
 * Decoded JSON documents and the path lookup the JSON-object extractor does
 * through gojsonq: the path is split at the configured separator and each
 * piece selects a member of a nested object.
 */
module Json {
  import opened Wrappers
  import Strings

  /** A decoded JSON value: Go's `nil`, `bool`, `float64`, `string`, `[]interface{}` or `map[string]interface{}`. */
  datatype Json =
    | Null
    | Bool(b: bool)
    | Number(n: real)
    | Str(s: string)
    | Array(items: seq<Json>)
    | Object(fields: map<string, Json>)

  /** Follows `keys` through nested objects; None as soon as a step is not an object holding that key. */
  function Walk(v: Json, keys: seq<string>): Option<Json>
    decreases |keys|
  {
    if keys == [] then Some(v)
    else if v.Object? && keys[0] in v.fields then Walk(v.fields[keys[0]], keys[1..])
    else None
  }

  /**
   * gojsonq's `Find(path)` after `Reset()`: the value at `path`, split at
   * `separator`, or None (Go's nil) when the path is absent or holds JSON null.
   */
  function Find(doc: Json, path: string, separator: string): (r: Option<Json>)
    ensures r.Some? ==> r.value != Null
    ensures r.Some? ==> Walk(doc, Strings.Split(path, separator)) == r
    ensures r.None? ==> Walk(doc, Strings.Split(path, separator)) in {None, Some(Null)}
  {
    match Walk(doc, Strings.Split(path, separator))
    case Some(v) => if v == Null then None else Some(v)
    case None => None
  }

  /**
   * A path written as keys joined by the separator finds what walking those
   * keys finds, provided no key contains the separator's first character.
   */
  lemma FindJoinedPath(doc: Json, keys: seq<string>, sep: string)
    requires sep != [] && keys != []
    requires forall k :: k in keys ==> sep[0] !in k
    ensures Find(doc, Strings.Join(keys, sep), sep) == (if Walk(doc, keys) == Some(Null) then None else Walk(doc, keys))
  {
    Strings.SplitJoin(keys, sep);
  }
}
