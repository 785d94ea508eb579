/**
 * An already-parsed JSON document, as System.Text.Json's JsonElement exposes
 * it through ValueKind, and the two lookups the core uses on it.
 * Textual parsing is not modelled: callers receive a `ParseResult`.
 */
module JsonValues {
  import opened Wrappers

  datatype Json =
    | JNull
    | JTrue
    | JFalse
    | JNumber(literal: string)           // kept as its literal text; the core never computes with it
    | JString(text: string)
    | JArray(items: seq<Json>)
    | JObject(members: seq<(string, Json)>) // in document order; names may repeat

  /** What JsonDocument.Parse produces: a root element, or the JsonException it throws. */
  datatype ParseResult = Parsed(root: Json) | ParseError(message: string)

  /** Outcome of TryGetProperty: NotObject is the InvalidOperationException thrown on a non-object. */
  datatype Property = Found(value: Json) | Missing | NotObject

  /**
   * The value of the LAST member called `name`: JsonElement property lookup
   * matches the last duplicate, and deserialising an object into a dictionary
   * keeps the last value too.
   */
  function LastMember<V>(members: seq<(string, V)>, name: string): (r: Option<V>)
    ensures r.None? <==> forall i :: 0 <= i < |members| ==> members[i].0 != name
    ensures r.Some? ==>
      exists i :: 0 <= i < |members| && members[i] == (name, r.value) &&
        forall j :: i < j < |members| ==> members[j].0 != name
  {
    if |members| == 0 then None
    else if members[|members| - 1].0 == name then Some(members[|members| - 1].1)
    else LastMember(members[..|members| - 1], name)
  }

  /** JsonElement.TryGetProperty(name, out value). */
  function TryGetProperty(element: Json, name: string): (r: Property)
    ensures r.NotObject? <==> !element.JObject?
    ensures r.Found? ==> element.JObject? && LastMember(element.members, name) == Some(r.value)
    ensures r.Missing? ==> element.JObject? && forall i :: 0 <= i < |element.members| ==> element.members[i].0 != name
  {
    match element
    case JObject(members) =>
      (match LastMember(members, name)
       case Some(v) => Found(v)
       case None => Missing)
    case _ => NotObject
  }

  /** An object's lookup of a name it holds once gives that member's value. */
  lemma {:induction false} LookupUnique<V>(members: seq<(string, V)>, k: nat)
    requires k < |members|
    requires forall j :: 0 <= j < |members| && j != k ==> members[j].0 != members[k].0
    ensures LastMember(members, members[k].0) == Some(members[k].1)
  {
    if k < |members| - 1 {
      LookupUnique(members[..|members| - 1], k);
    }
  }
}
