/** The streaming server's status document and the title extraction the play
    control performs on it. JSON values are abstract: an object is a map from
    keys to values, a string is a string, and every other kind of value
    (number, boolean, array, null) is lumped together. A lookup that the
    JSON library would answer with an exception yields `Thrown`. */
module StatusJson {

  datatype Json =
    | JObject(fields: map<string, Json>)
    | JString(str: string)
    | JOther

  /** The reasons a typed lookup on a JSON object fails. */
  datatype JsonError =
    | NoSuchKey(key: string)
    | NotAnObject(key: string)
    | NotAString(key: string)

  /** The result of a typed lookup: the value, or the exception it throws. */
  datatype Lookup<+T> = Found(value: T) | Thrown(error: JsonError)

  /** What one status document does to the display: show a title, nothing
      (there is no `source`), or nothing but a logged warning. */
  datatype InfoOutcome =
    | Show(title: string)
    | NoSource
    | Warned(error: JsonError)

  type JsonObject = map<string, Json>

  /** Presence test on a key, whatever kind of value it holds. */
  predicate Has(obj: JsonObject, key: string) {
    key in obj
  }

  /** The object stored under `key`; fails when the key is missing or the
      value there is not an object. */
  function GetObject(obj: JsonObject, key: string): (r: Lookup<JsonObject>)
    ensures r.Found? <==> key in obj && obj[key].JObject?
    ensures r.Found? ==> JObject(r.value) == obj[key]
    ensures key !in obj ==> r == Thrown(NoSuchKey(key))
    ensures key in obj && !obj[key].JObject? ==> r == Thrown(NotAnObject(key))
  {
    if key !in obj then Thrown(NoSuchKey(key))
    else match obj[key]
      case JObject(fields) => Found(fields)
      case _ => Thrown(NotAnObject(key))
  }

  /** The string stored under `key`; fails when the key is missing or the
      value there is not a string. */
  function GetString(obj: JsonObject, key: string): (r: Lookup<string>)
    ensures r.Found? <==> key in obj && obj[key].JString?
    ensures r.Found? ==> JString(r.value) == obj[key]
    ensures key !in obj ==> r == Thrown(NoSuchKey(key))
    ensures key in obj && !obj[key].JString? ==> r == Thrown(NotAString(key))
  {
    if key !in obj then Thrown(NoSuchKey(key))
    else match obj[key]
      case JString(s) => Found(s)
      case _ => Thrown(NotAString(key))
  }

  /** Walk `icestats.source` and take its `title`, falling back to its
      `server_name` when there is no `title` key at all. A `title` key whose
      value is not a string does not fall back: the lookup throws. */
  function ExtractTitle(info: JsonObject): (r: InfoOutcome)
    // `icestats` missing or not an object: the lookup throws.
    ensures ("icestats" !in info || !info["icestats"].JObject?) ==> r.Warned?
    // `icestats` is an object without `source`: silently nothing.
    ensures "icestats" in info && info["icestats"].JObject? && "source" !in info["icestats"].fields
            ==> r == NoSource
    // A string title wins.
    ensures forall t: string ::
              PathIs(info, "title", JString(t)) ==> r == Show(t)
    // No title key at all: the server name, when it is a string.
    ensures forall n: string ::
              SourceLacks(info, "title") && PathIs(info, "server_name", JString(n)) ==> r == Show(n)
    // Neither field: the server-name lookup throws.
    ensures SourceLacks(info, "title") && SourceLacks(info, "server_name") ==> r.Warned?
    // A `source` that is not an object throws.
    ensures "icestats" in info && info["icestats"].JObject? && "source" in info["icestats"].fields
            && !info["icestats"].fields["source"].JObject?
            ==> r == Warned(NotAnObject("source"))
    // A `title` that is not a string throws; it does not fall back.
    ensures HasSourceObject(info) && "title" in info["icestats"].fields["source"].fields
            && !info["icestats"].fields["source"].fields["title"].JString?
            ==> r == Warned(NotAString("title"))
    // No `title`, and a `server_name` that is not a string: it throws.
    ensures SourceLacks(info, "title") && "server_name" in info["icestats"].fields["source"].fields
            && !info["icestats"].fields["source"].fields["server_name"].JString?
            ==> r == Warned(NotAString("server_name"))
    // Doing nothing without a warning happens only when there is no `source`.
    ensures r == NoSource <==>
            "icestats" in info && info["icestats"].JObject? && "source" !in info["icestats"].fields
    // Whatever is shown is a string that sits at one of the two paths.
    ensures r.Show? ==> PathIs(info, "title", JString(r.title))
                        || (SourceLacks(info, "title") && PathIs(info, "server_name", JString(r.title)))
  {
    match GetObject(info, "icestats")
    case Thrown(e) => Warned(e)
    case Found(icestats) =>
      if !Has(icestats, "source") then NoSource
      else match GetObject(icestats, "source")
        case Thrown(e) => Warned(e)
        case Found(source) =>
          var title := if Has(source, "title") then GetString(source, "title")
                       else GetString(source, "server_name");
          match title
          case Found(t) => Show(t)
          case Thrown(e) => Warned(e)
  }

  /** The `source` object of a status document, when the path leads to one. */
  predicate HasSourceObject(info: JsonObject) {
    "icestats" in info && info["icestats"].JObject?
    && "source" in info["icestats"].fields
    && info["icestats"].fields["source"].JObject?
  }

  /** `icestats.source.<key>` exists and holds `v`. */
  predicate PathIs(info: JsonObject, key: string, v: Json) {
    HasSourceObject(info)
    && key in info["icestats"].fields["source"].fields
    && info["icestats"].fields["source"].fields[key] == v
  }

  /** `icestats.source` is an object that has no `key`. */
  predicate SourceLacks(info: JsonObject, key: string) {
    HasSourceObject(info) && key !in info["icestats"].fields["source"].fields
  }

  /** The status document an Icecast server serves for one source, with an
      optional stream title and an optional server name. */
  function IcecastStatus(title: string, hasTitle: bool, serverName: string, hasServerName: bool): (info: JsonObject)
    ensures HasSourceObject(info)
  {
    var source := (if hasTitle then map["title" := JString(title)] else map[])
                  + (if hasServerName then map["server_name" := JString(serverName)] else map[]);
    map["icestats" := JObject(map["source" := JObject(source)])]
  }

  /** Reading back a generated status document: the title when there is
      one, else the server name, else a warning. */
  lemma IcecastStatusRoundTrip(title: string, hasTitle: bool, serverName: string, hasServerName: bool)
    ensures var r := ExtractTitle(IcecastStatus(title, hasTitle, serverName, hasServerName));
            && (hasTitle ==> r == Show(title))
            && (!hasTitle && hasServerName ==> r == Show(serverName))
            && (!hasTitle && !hasServerName ==> r == Warned(NoSuchKey("server_name")))
  {
  }
}
