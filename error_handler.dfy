/** Error-format negotiation and the JSON exception handler
    (`RoutingService::call` lines 43-48, `enableJsonExceptionResponse`). */
module ErrorHandling {
  import opened Types

  const JsonMediaType: string := "application/json"

  /** PHP's strict `array_search`: the first position holding exactly
      `needle`, or None where PHP returns false. */
  function ArraySearch(needle: string, haystack: seq<string>): (r: Option<nat>)
    ensures r.Some? ==>
      && r.value < |haystack|
      && haystack[r.value] == needle
      && forall j :: 0 <= j < r.value ==> haystack[j] != needle
    ensures r.None? <==> needle !in haystack
  {
    if haystack == [] then None
    else if haystack[0] == needle then Some(0)
    else match ArraySearch(needle, haystack[1..])
      case None => None
      case Some(k) => Some(k + 1)
  }

  /** Whether the JSON exception handler is installed, given the values of
      the request's `accept` header (empty when the header is absent): some
      value must be exactly "application/json"; no media-type parsing. */
  function AcceptsJson(accept: seq<string>): (r: bool)
    ensures r <==> exists i :: 0 <= i < |accept| && accept[i] == JsonMediaType
    ensures accept == [] ==> !r
  {
    accept != [] && ArraySearch(JsonMediaType, accept).Some?
  }

  /** The document `{"error": {"code": code, "message": message}}`. */
  function ErrorDocument(code: int, message: string): Json
  {
    JObject(map["error" := JObject(map["code" := JInt(code), "message" := JString(message)])])
  }

  /** Reads the code and message back out of an error document; None for any
      other document, including one with members beyond the envelope's. */
  function ReadErrorDocument(doc: Json): (r: Option<(int, string)>)
    ensures forall code, message :: doc == ErrorDocument(code, message) ==> r == Some((code, message))
    ensures r.Some? ==> doc == ErrorDocument(r.value.0, r.value.1)
  {
    if doc.JObject? && doc.members.Keys == {"error"} && doc.members["error"].JObject? then
      var e := doc.members["error"].members;
      if e.Keys == {"code", "message"} && e["code"].JInt? && e["message"].JString? then
        assert e == map["code" := JInt(e["code"].i), "message" := JString(e["message"].s)];
        assert doc.members == map["error" := doc.members["error"]];
        Some((e["code"].i, e["message"].s))
      else None
    else None
  }

  /** The response the installed handler emits for an uncaught throwable. */
  function ExceptionResponse(t: Throwable): (r: HttpResponse)
    ensures t.kind.OAuthServer? ==> r == t.kind.generated
    ensures !t.kind.OAuthServer? ==>
      && r.status == 500
      && "content-type" in r.headers && r.headers["content-type"] == [JsonMediaType]
      && r.body.JsonBody?
      && ReadErrorDocument(r.body.doc) == Some((500, t.message))
  {
    if t.kind.OAuthServer? then t.kind.generated
    else HttpResponse(500, map["content-type" := [JsonMediaType]], JsonBody(ErrorDocument(500, t.message)))
  }
}
