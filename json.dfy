/** JSON documents, modelled by their decoded structure rather than their text.
    `json.dumps` / `json.loads` and the JWT library's payload encoding are
    therefore not modelled character by character: a stored string is either a
    document `json.loads` accepts (`JsonText`) or text it rejects (`RawText`). */
module Json {
  import opened Common

  datatype JsonValue =
    | JNull
    | JBool(b: bool)
    | JInt(i: int)
    | JString(s: string)
    | JList(items: seq<JsonValue>)
    | JObject(fields: map<string, JsonValue>)

  /** A string as `json.loads` reads it. */
  datatype Text = JsonText(doc: JsonValue) | RawText(raw: string)

  /** Python truthiness of the stored string: only the empty string is false,
      and the text of a JSON document is never empty. */
  predicate TextTruthy(t: Text) {
    t.JsonText? || Truthy(t.raw)
  }

  /** A list of str as a JSON array. */
  function StringList(xs: seq<string>): (r: seq<JsonValue>)
    ensures |r| == |xs|
    ensures forall i :: 0 <= i < |xs| ==> r[i] == JString(xs[i])
  {
    if xs == [] then [] else [JString(xs[0])] + StringList(xs[1..])
  }

  /** Validation of a JSON array against `List[str]`: every item must be a
      string (no coercion). */
  function AsStrings(items: seq<JsonValue>): (r: Option<seq<string>>)
    ensures r.Some? <==> forall i :: 0 <= i < |items| ==> items[i].JString?
    ensures r.Some? ==> |r.value| == |items|
    ensures r.Some? ==> forall i :: 0 <= i < |items| ==> r.value[i] == items[i].s
  {
    if items == [] then Some([])
    else if !items[0].JString? then None
    else
      match AsStrings(items[1..])
      case None => None
      case Some(rest) => Some([items[0].s] + rest)
  }

  /** Encoding a list of str as a JSON array and validating it back as
      `List[str]` gives the list back. */
  lemma {:induction false} AsStringsOfStringList(xs: seq<string>)
    ensures AsStrings(StringList(xs)) == Some(xs)
  {
    var items := StringList(xs);
    var r := AsStrings(items);
    assert r.Some?;
    assert |r.value| == |xs|;
    assert forall i :: 0 <= i < |xs| ==> r.value[i] == xs[i];
    assert r.value == xs;
  }
}
