/**
 * The message card `send_teams_notification` posts: a title, a text and two
 * sections, the second holding one fact chosen by the status. Encoding the
 * card and posting it are not modelled; `json.dumps` of the error message is
 * a parameter.
 */
module Notify {
  import opened Text

  /** The status that selects the error fact, spelled as the library spells it. */
  const Failed := "FAILLED"

  const ActivityImage := "https://teamsnodesample.azurewebsites.net/static/img/image5.png"

  /** A JSON value; an object keeps its keys in insertion order, as a Python dict does. */
  datatype Json = JString(s: string) | JList(items: seq<Json>) | JObject(fields: seq<(string, Json)>)

  /** The keys of an object, in order. */
  function Keys(fields: seq<(string, Json)>): (ks: seq<string>)
    ensures |ks| == |fields|
    ensures forall i :: 0 <= i < |fields| ==> ks[i] == fields[i].0
  {
    seq(|fields|, i requires 0 <= i < |fields| => fields[i].0)
  }

  /** The value under `key`, if there is one. */
  function Lookup(fields: seq<(string, Json)>, key: string): Option<Json>
  {
    if fields == [] then None
    else if fields[0].0 == key then Some(fields[0].1)
    else Lookup(fields[1..], key)
  }

  /** `d[key] = value`: a present key keeps its place and takes the value, a new one goes last. */
  function Put(fields: seq<(string, Json)>, key: string, value: Json): (r: seq<(string, Json)>)
    ensures Lookup(r, key) == Some(value)
    ensures key in Keys(fields) ==> Keys(r) == Keys(fields)
    ensures key !in Keys(fields) ==> Keys(r) == Keys(fields) + [key]
    ensures forall k :: k != key ==> Lookup(r, k) == Lookup(fields, k)
  {
    if fields == [] then
      ConsFields((key, value), []);
      [(key, value)]
    else if fields[0].0 == key then
      ConsFields(fields[0], fields[1..]);
      ConsFields((key, value), fields[1..]);
      [(key, value)] + fields[1..]
    else
      var rest := Put(fields[1..], key, value);
      ConsFields(fields[0], fields[1..]);
      ConsFields(fields[0], rest);
      [fields[0]] + rest
  }

  /** The keys and lookups of an object with one more field in front. */
  lemma ConsFields(field: (string, Json), rest: seq<(string, Json)>)
    ensures Keys([field] + rest) == [field.0] + Keys(rest)
    ensures forall k :: Lookup([field] + rest, k) == if k == field.0 then Some(field.1) else Lookup(rest, k)
  {
    var fields := [field] + rest;
    assert fields[1..] == rest;
    assert Keys(fields) == [field.0] + Keys(rest) by {
      forall i | 0 <= i < |fields|
        ensures Keys(fields)[i] == ([field.0] + Keys(rest))[i]
      {
        if i > 0 {
          assert fields[i] == rest[i - 1];
        }
      }
    }
    forall k
      ensures Lookup(fields, k) == if k == field.0 then Some(field.1) else Lookup(rest, k)
    {
      assert fields[0] == field;
    }
  }

  /** The two sections of the card: the activity, then the output with its one fact. */
  function Sections(status: string, activitySubtitle: string, activityText: string,
                    factName: string, factValue: string): Json
  {
    JList([
      JObject([("activityTitle", JString(status)), ("activitySubtitle", JString(activitySubtitle)),
               ("activityText", JString(activityText)), ("activityImage", JString(ActivityImage))]),
      JObject([("title", JString("Output")),
               ("facts", JList([JObject([("name", JString(factName)), ("value", JString(factValue))])]))])])
  }

  /** The payload built key by key. */
  method BuildPayload(title: string, text: string, message: string, status: string, errorMessage: string,
                      activitySubtitle: string, activityText: string, dumps: string -> string)
    returns (payload: Json)
    ensures payload.JObject? && Keys(payload.fields) == ["title", "text", "sections"]
    ensures Lookup(payload.fields, "title") == Some(JString(title))
    ensures Lookup(payload.fields, "text") == Some(JString(text))
    ensures status == Failed ==>
      Lookup(payload.fields, "sections") ==
        Some(Sections(status, activitySubtitle, activityText, "Error Message", dumps(errorMessage)))
    ensures status != Failed ==>
      Lookup(payload.fields, "sections") == Some(Sections(status, activitySubtitle, activityText, "Message", message))
  {
    var fields: seq<(string, Json)> := [];
    fields := Put(fields, "title", JString(title));
    fields := Put(fields, "text", JString(text));
    var encoded := dumps(errorMessage);
    var factName, factValue;
    if status == Failed {
      factName, factValue := "Error Message", encoded;
    } else {
      factName, factValue := "Message", message;
    }
    fields := Put(fields, "sections", Sections(status, activitySubtitle, activityText, factName, factValue));
    payload := JObject(fields);
  }
}
