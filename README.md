# Karate mock-server dispatch, modelled in Dafny

This project models the dispatch core of Karate's multi-feature mock server, the class
`FeaturesBackend`. The server runs several mock backends at once, one per feature file. For each
incoming HTTP request the class does one of two things:

- It answers a CORS preflight (`OPTIONS` while any backend enables CORS) directly, with a fixed
  response.
- Otherwise it builds a *match context* from the request. This is the variable map every
  backend's scenario predicates read, with the body classified as JSON, XML or text. It then
  routes the context: every backend's scored candidate scenarios are pooled, the best score
  wins with the earliest kept on ties, and only when no backend offers a candidate does the
  first declared default scenario answer.

Modules, one per component:

- `Wrappers`: `Option`, standing in for Java's nullable references.
- `Scores`: score vectors, their lexicographic comparison, and its order properties.
- `Http`: the request value, and the response as a class updated through its setters.
- `MatchContext`: body classification and the match context. The context is built step by
  step through a `MatchVars` object, as the Java `Match` builder is.
- `Routing`: backends, the candidate and default pools, the `Stream.max` reduction, the
  imperative router, and the routing lemmas.
- `Cors`: `IsCorsEnabled`, the preflight headers, and the imperative `CorsCheck`.
- `Dispatch`: `buildResponse` and `handle`.

Collaborators the file calls but does not define are parameters of the model:

- A `Backend` carries its `getMatchingScenarios` and `getDefaultScenario` as functions of the
  context, plus its CORS flag.
- `Codecs` carries the byte decoder, the JSON and XML sniffers, and the two parsers. A parser
  that throws is a parser returning `None`.
- The clock reading taken for the response's end time is the parameter `now`.

Behaviour of the source that the model keeps as written:

- The context also carries `responseStatus = 200` (line 98).
- Routing that finds nothing returns `null` (line 168). The model keeps this `null` as
  `None`; the dereference that follows in `buildResponse` and `handle` (lines 122-126,
  143-145) is required away (see "Left out").
- `Stream.max` keeps the element held so far unless the next one compares strictly higher, so
  the earliest maximum in pool order wins (line 171).
- A JSON-looking text that fails to parse stays text and is never tried as XML (lines 105-117).

## Model

| member | source | states |
|---|---|---|
| Scores.CompareScores | karate-core/src/main/java/com/intuit/karate/core/FeaturesBackend.java:171 | the score comparator is a three-way sign (-1, 0, 1) that is zero exactly on equal vectors |
| Scores.CompareAntisymmetric | karate-core/src/main/java/com/intuit/karate/core/FeaturesBackend.java:171 | comparing the other way round flips the sign, so the comparator handed to `max` is consistent |
| Scores.CompareTransitive | karate-core/src/main/java/com/intuit/karate/core/FeaturesBackend.java:171 | "scores no higher than" is transitive, and strict whenever one step is strict, so a maximum is well defined |
| Scores.ZeroScoreIsLowest | karate-core/src/main/java/com/intuit/karate/core/FeaturesBackend.java:163 | the all-zero score given to defaults is the lowest five-entry score, equal only to itself |
| Scores.FirstDifferenceDecides | karate-core/src/main/java/com/intuit/karate/core/FeaturesBackend.java:171 | the comparison is lexicographic: at the first position where two vectors differ, the larger entry makes its vector score higher, whatever follows |
| Scores.LeadingEntryDominates | karate-core/src/main/java/com/intuit/karate/core/FeaturesBackend.java:171 | the instance of that rule on one pair: [2,0,0,0,0] beats [1,9,9,9,9] |
| Http.Response.constructor | karate-core/src/main/java/com/intuit/karate/core/FeaturesBackend.java:130 | a new response records its start and end times and has no headers |
| Http.Response.SetStatus | karate-core/src/main/java/com/intuit/karate/core/FeaturesBackend.java:131 | the status becomes the given code and nothing else changes |
| Http.Response.AddHeader | karate-core/src/main/java/com/intuit/karate/core/FeaturesBackend.java:132-134 | the value is appended to that header's list and every other header is untouched |
| Http.Response.PutHeader | karate-core/src/main/java/com/intuit/karate/core/FeaturesBackend.java:137 | that header's list is replaced wholesale and every other header is untouched |
| MatchContext.ClassifyBody | karate-core/src/main/java/com/intuit/karate/core/FeaturesBackend.java:103-117 | the body is a JSON doc iff it looks like JSON and parses; an XML doc iff it does not look like JSON, looks like XML and parses; otherwise the decoded text unchanged |
| MatchContext.ContextFor | karate-core/src/main/java/com/intuit/karate/core/FeaturesBackend.java:93-119 | the six request variables are always present with the request's values; the bytes and classified body are present exactly when there is a body |
| MatchContext.MatchVars.constructor | karate-core/src/main/java/com/intuit/karate/core/FeaturesBackend.java:93 | a new builder defines no variables |
| MatchContext.MatchVars.Def | karate-core/src/main/java/com/intuit/karate/core/FeaturesBackend.java:94-99 | defining a variable sets that key and leaves every other key as it was |
| MatchContext.BuildMatchContext | karate-core/src/main/java/com/intuit/karate/core/FeaturesBackend.java:93-119 | the builder sequence, with the body reassigned in place on a successful parse, yields exactly the context `ContextFor` describes |
| Routing.Candidates | karate-core/src/main/java/com/intuit/karate/core/FeaturesBackend.java:156-161 | the real-candidate pool lists backends in declaration order: every entry names an existing backend and backend indices never decrease along the pool |
| Routing.Defaults | karate-core/src/main/java/com/intuit/karate/core/FeaturesBackend.java:159-163 | the default pool holds, in strictly increasing backend order, each backend's own default scenario scored all zero |
| Routing.Route | karate-core/src/main/java/com/intuit/karate/core/FeaturesBackend.java:166-181 | the routing decision is either nothing or an entry of one of the two pools, attributed to an existing backend |
| Routing.BestIndex | karate-core/src/main/java/com/intuit/karate/core/FeaturesBackend.java:171 | the `Stream.max` reduction lands on a position inside the pool |
| Routing.GetMatchingScenario | karate-core/src/main/java/com/intuit/karate/core/FeaturesBackend.java:152-182 | the pooling loop and the max reduction compute the routing decision `Route` (whose properties are the lemmas below) |
| Routing.MaxByScore | karate-core/src/main/java/com/intuit/karate/core/FeaturesBackend.java:171 | the `Stream.max` reduction, run as a loop over the pool, lands on the element `BestIndex` names |
| Routing.CandidatesComplete | karate-core/src/main/java/com/intuit/karate/core/FeaturesBackend.java:158-161 | every offer of every backend enters the candidate pool (`addAll`), attributed to that backend with its scenario and score |
| Routing.CandidatesEmpty | karate-core/src/main/java/com/intuit/karate/core/FeaturesBackend.java:156-161 | the candidate pool is empty iff no backend offers a scenario |
| Routing.DefaultsEmpty | karate-core/src/main/java/com/intuit/karate/core/FeaturesBackend.java:159-163 | the default pool is empty iff no backend has a default scenario |
| Routing.CandidateOrigin | karate-core/src/main/java/com/intuit/karate/core/FeaturesBackend.java:158-161 | every pooled candidate is an offer of the existing backend it is attributed to |
| Routing.BestIndexIsFirstMaximum | karate-core/src/main/java/com/intuit/karate/core/FeaturesBackend.java:171 | the reduction picks a maximum of the pool, and every earlier element scores strictly lower (left element kept on ties) |
| Routing.RouteNoMatch | karate-core/src/main/java/com/intuit/karate/core/FeaturesBackend.java:166-169 | routing returns no match iff no backend offers a candidate and none has a default |
| Routing.RouteBest | karate-core/src/main/java/com/intuit/karate/core/FeaturesBackend.java:171-178 | with candidates pooled, the winner is one of them (never a default), an offer of its own backend, and no pooled candidate scores higher |
| Routing.WinnerBeatsEveryOffer | karate-core/src/main/java/com/intuit/karate/core/FeaturesBackend.java:158-171 | if any backend offers a scenario, routing picks a winner and no backend's offer scores higher than it |
| Routing.RouteFirstMaximum | karate-core/src/main/java/com/intuit/karate/core/FeaturesBackend.java:154-171 | among equal maximum scores the earliest in pool order (backend order, then each backend's order) wins |
| Routing.DefaultsFirst | karate-core/src/main/java/com/intuit/karate/core/FeaturesBackend.java:159-163 | the head of the default pool is the default of the first declared backend that has one, scored all zero |
| Routing.RouteDefault | karate-core/src/main/java/com/intuit/karate/core/FeaturesBackend.java:171-175 | with no candidate anywhere, the winner is the default of the first declared backend that has one, attributed to that backend with the all-zero score |
| Routing.TwoBackendExample | karate-core/src/main/java/com/intuit/karate/core/FeaturesBackend.java:152-181 | [1,1,0,0,0] from the second backend beats [1,0,0,0,0] from the first, and the first backend's default plays no part |
| Cors.IsCorsEnabled | karate-core/src/main/java/com/intuit/karate/core/FeaturesBackend.java:80-82 | CORS is enabled iff some backend's configuration enables it |
| Cors.CorsHeaders | karate-core/src/main/java/com/intuit/karate/core/FeaturesBackend.java:129-138 | `Allow` and `Access-Control-Allow-Methods` are the fixed method list and the origin is `*`; `Access-Control-Allow-Headers` is present iff the request carries `Access-Control-Request-Headers` and then holds its values unchanged; no other header is set |
| Cors.CorsCheck | karate-core/src/main/java/com/intuit/karate/core/FeaturesBackend.java:129-140 | the preflight response is new, has status 200, carries the start time and clock reading, and has exactly the `CorsHeaders` headers |
| Dispatch.IsPreflight | karate-core/src/main/java/com/intuit/karate/core/FeaturesBackend.java:89 | a request bypasses routing iff it is an `OPTIONS` request and some backend enables CORS |
| Dispatch.BuildResponse | karate-core/src/main/java/com/intuit/karate/core/FeaturesBackend.java:88-127 | a preflight with CORS enabled anywhere gets the CORS response (status 200, the `CorsHeaders` headers, the start time and clock reading); any other request is handed to the routed winner together with its match context |
| Dispatch.Handle | karate-core/src/main/java/com/intuit/karate/core/FeaturesBackend.java:142-146 | routing the prepared variable map yields exactly `Route`'s winner, whose backend's `handle` is then called with that map |

## Left out

- Logging (`logger.info/debug/warn/error`) is left out. This includes the "picked" versus "defaulted" debug line and the warning on a failed parse.
- The clock is not modelled: `System.currentTimeMillis()` is the parameter `now`.
- The constructors that wrap `Feature` objects into backends are left out: they are object wiring. The model takes the backend sequence as given.
- `getContext()` is left out: it only reaches the first backend's logger.
- Routing.Route: with no backends at all, Java fails earlier, because the constructor (line 77) and `getContext()` (line 85, reached at line 167) read the first backend of an empty list. The model instead routes an empty backend sequence to `None`.
- The unused `DUMMY_FEATURE` constant and the commented-out fields are dead code and are not modelled.
- `FeatureBackend` is not part of this model. Its `FeatureScenarioMatch` is the datatype `ScenarioMatch`. Its `getMatchingScenarios` and `getDefaultScenario` are function fields of `Backend`. A returned candidate is assumed to name the backend that produced it, here its index in the sequence. Its own `buildResponse` and `handle` are what `Dispatch` hands off to.
- Scores.CompareScores: `FeatureBackend.compareScores` is not part of this model. It stands here as a lexicographic comparison, with a shorter vector below any longer one it is a prefix of. Well-formed five-entry scores never reach that case.
- `Script.isJson`, `Script.isXml`, `JsonUtils.toJsonDoc`, `XmlUtils.toXmlDoc` and `FileUtils.toString` are not part of this model. They are the parameters in `Codecs`, and the parsed documents are opaque types. So the JSON re-serialisation round trip is not stated.
- `HttpRequest`, `HttpResponse`, `Match`, `ScriptValueMap` and `HttpUtils` are not part of this model. The model keeps only the members used here. The header and variable names are written out as constants.
- Http.Response.constructor: the status a fresh Java response starts with is not known here, so the model starts it at 0.
- Header lookup is by exact name, as a Java map `get` is. No case folding is modelled.
- Dispatch.BuildResponse: a request that matches nothing dereferences `null` in Java. The model requires a match instead of modelling the exception. Dispatch.Handle does the same.
- Concurrency between requests is left out. Dispatch reads backends and never updates them.
