/**
 * Request dispatch: a preflight request is answered directly when any backend
 * enables CORS; every other request is turned into a match context and routed,
 * and the winning backend and scenario are handed back with that context for
 * the backend to build the response.
 */
module Dispatch {
  import opened Wrappers
  import opened Http
  import opened MatchContext
  import opened Routing
  import opened Cors

  /** What handling a request yields: a finished preflight response, or a routed hand-off. */
  datatype Outcome =
    | Preflight(response: Response)
    | Handoff(winner: ScenarioMatch, context: Context)

  /** Requests the CORS responder answers without routing. */
  predicate IsPreflight(request: Request, backends: seq<Backend>)
    ensures IsPreflight(request, backends) <==>
      request.verb == "OPTIONS" && exists i :: 0 <= i < |backends| && backends[i].corsEnabled
  {
    request.verb == "OPTIONS" && IsCorsEnabled(backends)
  }

  /**
   * Handles one request. Routing that finds nothing has no defined outcome
   * (the winner is dereferenced unchecked), so callers must ensure a match.
   */
  method BuildResponse(codecs: Codecs, backends: seq<Backend>, request: Request, startTime: int, now: int)
    returns (outcome: Outcome)
    requires !IsPreflight(request, backends) ==> Route(backends, ContextFor(codecs, request)).Some?
    ensures IsPreflight(request, backends) ==>
      && outcome.Preflight?
      && fresh(outcome.response)
      && outcome.response.startTime == startTime
      && outcome.response.endTime == now
      && outcome.response.status == 200
      && outcome.response.headers == CorsHeaders(request.headers)
    ensures !IsPreflight(request, backends) ==>
      outcome == Handoff(Route(backends, ContextFor(codecs, request)).value, ContextFor(codecs, request))
  {
    if request.verb == "OPTIONS" && IsCorsEnabled(backends) {
      var response := CorsCheck(request, startTime, now);
      return Preflight(response);
    }
    var ctx := BuildMatchContext(codecs, request);
    var matchingInfo := GetMatchingScenario(backends, ctx);
    outcome := Handoff(matchingInfo.value, ctx);
  }

  /**
   * Routes an already built variable map and hands the winner on to its
   * backend; like `BuildResponse`, it requires that something matches.
   */
  method Handle(backends: seq<Backend>, args: Context) returns (winner: ScenarioMatch)
    requires Route(backends, args).Some?
    ensures winner == Route(backends, args).value
  {
    var matchingInfo := GetMatchingScenario(backends, args);
    winner := matchingInfo.value;
  }
}
