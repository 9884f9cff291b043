/**
 * The match context: the variables a request exposes to every backend's
 * scenario predicates, and the classification of the request body into a
 * JSON document, an XML document or plain text.
 */
module MatchContext {
  import opened Wrappers
  import opened Http

  /** Parsed documents; their representation belongs to the parsers. */
  type JsonDoc
  type XmlDoc

  /** A context variable's value. */
  datatype Value =
    | Str(text: string)
    | Multi(entries: MultiMap)
    | Num(n: int)
    | Bytes(bytes: seq<byte>)
    | Json(json: JsonDoc)
    | Xml(xml: XmlDoc)

  type Context = map<string, Value>

  /**
   * The text decoder and the JSON/XML sniffers and parsers the classifier
   * delegates to. A parser that throws is a parser returning `None`.
   */
  datatype Codecs = Codecs(
    decode: seq<byte> -> string,
    isJson: string -> bool,
    toJsonDoc: string -> Option<JsonDoc>,
    isXml: string -> bool,
    toXmlDoc: string -> Option<XmlDoc>)

  const RequestUrlBaseKey := "requestUrlBase"
  const RequestUriKey := "requestUri"
  const RequestMethodKey := "requestMethod"
  const RequestHeadersKey := "requestHeaders"
  const ResponseStatusKey := "responseStatus"
  const RequestParamsKey := "requestParams"
  const RequestBytesKey := "requestBytes"
  const RequestKey := "request"

  /** The keys every context carries, body or not. */
  const FixedKeys: set<string> :=
    {RequestUrlBaseKey, RequestUriKey, RequestMethodKey,
     RequestHeadersKey, ResponseStatusKey, RequestParamsKey}

  /**
   * Body classification: JSON is tried first, XML only when the text does not
   * look like JSON, and a failed parse keeps the decoded text.
   */
  function ClassifyBody(codecs: Codecs, text: string): (v: Value)
    ensures v.Json? <==> codecs.isJson(text) && codecs.toJsonDoc(text).Some?
    ensures v.Json? ==> v.json == codecs.toJsonDoc(text).value
    ensures v.Xml? <==> !codecs.isJson(text) && codecs.isXml(text) && codecs.toXmlDoc(text).Some?
    ensures v.Xml? ==> v.xml == codecs.toXmlDoc(text).value
    ensures !v.Json? && !v.Xml? ==> v == Str(text)
  {
    if codecs.isJson(text) then
      match codecs.toJsonDoc(text)
      case Some(doc) => Json(doc)
      case None => Str(text)
    else if codecs.isXml(text) then
      match codecs.toXmlDoc(text)
      case Some(doc) => Xml(doc)
      case None => Str(text)
    else
      Str(text)
  }

  /**
   * The context built for `request`: the six fixed variables always, the raw
   * bytes and the classified body only when there is a body.
   */
  function ContextFor(codecs: Codecs, request: Request): (ctx: Context)
    ensures request.body.None? ==> ctx.Keys == FixedKeys
    ensures request.body.Some? ==> ctx.Keys == FixedKeys + {RequestBytesKey, RequestKey}
    ensures ctx[RequestUrlBaseKey] == Str(request.urlBase)
    ensures ctx[RequestUriKey] == Str(request.uri)
    ensures ctx[RequestMethodKey] == Str(request.verb)
    ensures ctx[RequestHeadersKey] == Multi(request.headers)
    ensures ctx[ResponseStatusKey] == Num(200)
    ensures ctx[RequestParamsKey] == Multi(request.params)
    ensures request.body.Some? ==> ctx[RequestBytesKey] == Bytes(request.body.value)
    ensures request.body.Some? ==>
      ctx[RequestKey] == ClassifyBody(codecs, codecs.decode(request.body.value))
  {
    var fixed := map[
      RequestUrlBaseKey := Str(request.urlBase),
      RequestUriKey := Str(request.uri),
      RequestMethodKey := Str(request.verb),
      RequestHeadersKey := Multi(request.headers),
      ResponseStatusKey := Num(200),
      RequestParamsKey := Multi(request.params)];
    match request.body
    case None => fixed
    case Some(bytes) =>
      fixed[RequestBytesKey := Bytes(bytes)][RequestKey := ClassifyBody(codecs, codecs.decode(bytes))]
  }

  /** The variable map under construction, filled in by `Def`. */
  class MatchVars {
    var vars: Context

    constructor ()
      ensures vars == map[]
    {
      vars := map[];
    }

    /** Defines (or redefines) one variable. */
    method Def(key: string, value: Value)
      modifies this
      ensures vars == old(vars)[key := value]
    {
      vars := vars[key := value];
    }
  }

  /** Builds the match context step by step, classifying the body in place. */
  method BuildMatchContext(codecs: Codecs, request: Request) returns (ctx: Context)
    ensures ctx == ContextFor(codecs, request)
  {
    var m := new MatchVars();
    m.Def(RequestUrlBaseKey, Str(request.urlBase));
    m.Def(RequestUriKey, Str(request.uri));
    m.Def(RequestMethodKey, Str(request.verb));
    m.Def(RequestHeadersKey, Multi(request.headers));
    m.Def(ResponseStatusKey, Num(200));
    m.Def(RequestParamsKey, Multi(request.params));
    if request.body.Some? {
      var requestBytes := request.body.value;
      m.Def(RequestBytesKey, Bytes(requestBytes));
      var requestString := codecs.decode(requestBytes);
      var requestBody := Str(requestString);
      if codecs.isJson(requestString) {
        var parsed := codecs.toJsonDoc(requestString);
        if parsed.Some? {
          requestBody := Json(parsed.value);
        }
      } else if codecs.isXml(requestString) {
        var parsed := codecs.toXmlDoc(requestString);
        if parsed.Some? {
          requestBody := Xml(parsed.value);
        }
      }
      m.Def(RequestKey, requestBody);
    }
    ctx := m.vars;
  }
}
