/**
 * The request and response shapes the dispatcher works on. Karate's own
 * HttpRequest and HttpResponse classes are not part of this model; only the
 * members the dispatcher uses are kept.
 */
module Http {
  import opened Wrappers

  newtype byte = x: int | 0 <= x < 256

  /** Header and query-parameter multimaps: a name maps to its list of values. */
  type MultiMap = map<string, seq<string>>

  /** An inbound request (`verb` is the HTTP method); `body == None` is a null body. */
  datatype Request = Request(
    verb: string,
    urlBase: string,
    uri: string,
    headers: MultiMap,
    params: MultiMap,
    body: Option<seq<byte>>)

  /** The values `name` maps to after one more `value` is appended under it. */
  function Appended(m: MultiMap, name: string, value: string): (r: MultiMap)
    ensures r.Keys == m.Keys + {name}
    ensures r[name] == (if name in m then m[name] else []) + [value]
    ensures forall k :: k in m && k != name ==> r[k] == m[k]
  {
    m[name := (if name in m then m[name] else []) + [value]]
  }

  /** A response under construction, updated in place through its setters. */
  class Response {
    var status: int
    var headers: MultiMap
    const startTime: int
    const endTime: int

    constructor (startTime: int, endTime: int)
      ensures this.startTime == startTime && this.endTime == endTime
      ensures headers == map[]
    {
      this.startTime := startTime;
      this.endTime := endTime;
      status := 0;
      headers := map[];
    }

    method SetStatus(code: int)
      modifies this`status
      ensures status == code
    {
      status := code;
    }

    /** Appends one value to the header's list, creating the list if absent. */
    method AddHeader(name: string, value: string)
      modifies this`headers
      ensures headers == Appended(old(headers), name, value)
    {
      headers := Appended(headers, name, value);
    }

    /** Replaces the header's whole list of values. */
    method PutHeader(name: string, values: seq<string>)
      modifies this`headers
      ensures headers == old(headers)[name := values]
    {
      headers := headers[name := values];
    }
  }
}
