/**
 * The CORS preflight response (the "CORS-preflight request" of the CORS
 * protocol in the WHATWG Fetch standard), answered without consulting any
 * scenario.
 */
module Cors {
  import opened Http
  import opened Routing

  /** The server-wide list of methods advertised to a preflight request. */
  const AllowedMethods := "GET, HEAD, POST, PUT, DELETE, PATCH"

  const AllowHeader := "Allow"
  const AllowOriginHeader := "Access-Control-Allow-Origin"
  const AllowMethodsHeader := "Access-Control-Allow-Methods"
  const AllowHeadersHeader := "Access-Control-Allow-Headers"
  const RequestHeadersHeader := "Access-Control-Request-Headers"

  /** CORS is on when at least one backend's configuration enables it. */
  function IsCorsEnabled(backends: seq<Backend>): (enabled: bool)
    ensures enabled <==> exists i :: 0 <= i < |backends| && backends[i].corsEnabled
  {
    if backends == [] then false
    else if backends[0].corsEnabled then true
    else
      assert forall i :: 1 <= i < |backends| ==> backends[1..][i - 1] == backends[i];
      IsCorsEnabled(backends[1..])
  }

  /**
   * The preflight response headers: the fixed method list under `Allow` and
   * `Access-Control-Allow-Methods`, a wildcard origin, and the requested
   * headers echoed back exactly when the request names any.
   */
  function CorsHeaders(requestHeaders: MultiMap): (h: MultiMap)
    ensures h.Keys == {AllowHeader, AllowOriginHeader, AllowMethodsHeader} +
      (if RequestHeadersHeader in requestHeaders then {AllowHeadersHeader} else {})
    ensures h[AllowHeader] == [AllowedMethods]
    ensures h[AllowOriginHeader] == ["*"]
    ensures h[AllowMethodsHeader] == [AllowedMethods]
    ensures AllowHeadersHeader in h <==> RequestHeadersHeader in requestHeaders
    ensures RequestHeadersHeader in requestHeaders ==>
      h[AllowHeadersHeader] == requestHeaders[RequestHeadersHeader]
  {
    var fixed := Appended(Appended(Appended(map[], AllowHeader, AllowedMethods),
                                   AllowOriginHeader, "*"),
                          AllowMethodsHeader, AllowedMethods);
    if RequestHeadersHeader in requestHeaders
    then fixed[AllowHeadersHeader := requestHeaders[RequestHeadersHeader]]
    else fixed
  }

  /** Builds the preflight response; `now` is the clock reading at that moment. */
  method CorsCheck(request: Request, startTime: int, now: int) returns (response: Response)
    ensures fresh(response)
    ensures response.startTime == startTime && response.endTime == now
    ensures response.status == 200
    ensures response.headers == CorsHeaders(request.headers)
  {
    response := new Response(startTime, now);
    response.SetStatus(200);
    response.AddHeader(AllowHeader, AllowedMethods);
    response.AddHeader(AllowOriginHeader, "*");
    response.AddHeader(AllowMethodsHeader, AllowedMethods);
    if RequestHeadersHeader in request.headers {
      var requestHeaders := request.headers[RequestHeadersHeader];
      response.PutHeader(AllowHeadersHeader, requestHeaders);
    }
  }
}
