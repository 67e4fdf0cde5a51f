/**
 * The query catalog `QUERIES` (main.js:44-61), the status-text table
 * `HTTP_CODES` (main.js:63-127), the JSON bodies the agent answers with,
 * and how `executeQuery` (main.js:492-510) classifies the outcome of one
 * HTTPS request.
 */
module Catalog {
  import opened Js

  /** The checks the agent is asked for. */
  datatype Query = Info | CheckCpu | CheckDrivesize | CheckMemory

  /** The key of the check in `QUERIES`. */
  function QueryName(q: Query): string {
    match q
    case Info => "info"
    case CheckCpu => "check_cpu"
    case CheckDrivesize => "check_drivesize"
    case CheckMemory => "check_memory"
  }

  /** The URL path of the check, appended to the device's base URL. */
  function QueryPath(q: Query): string {
    match q
    case Info => "/api/v1/info"
    case CheckCpu => "/api/v1/queries/check_cpu/commands/execute"
    case CheckDrivesize => "/api/v1/queries/check_drivesize/commands/execute"
    case CheckMemory => "/api/v1/queries/check_memory/commands/execute"
  }

  /** The two payload shapes: `parseInfo` and `parsePerf`. */
  datatype ParserKind = InfoParser | PerfParser

  function ParserOf(q: Query): ParserKind {
    if q == Info then InfoParser else PerfParser
  }

  /** The order in which a device's enabled checks are run. */
  const CheckOrder: seq<Query> := [CheckCpu, CheckDrivesize, CheckMemory]

  /** `HTTP_CODES[code]`; a code missing from the table reads as `undefined`. */
  function HttpReason(code: nat): string {
    match code
    case 100 => "Continue"
    case 101 => "Switching Protocols"
    case 102 => "Processing"
    case 103 => "Early Hints"
    case 200 => "OK"
    case 201 => "Created"
    case 202 => "Accepted"
    case 203 => "Non-Authoritative Information"
    case 204 => "No Content"
    case 205 => "Reset Content"
    case 206 => "Partial Content"
    case 207 => "Multi-Status"
    case 208 => "Already Reported"
    case 226 => "IM Used"
    case 300 => "Multiple Choices"
    case 301 => "Moved Permanently"
    case 302 => "Found"
    case 303 => "See Other"
    case 304 => "Not Modified"
    case 305 => "Use Proxy"
    case 307 => "Temporary Redirect"
    case 308 => "Permanent Redirect"
    case 400 => "Bad Request"
    case 401 => "Unauthorized"
    case 402 => "Payment Required"
    case 403 => "Forbidden"
    case 404 => "Not Found"
    case 405 => "Method Not Allowed"
    case 406 => "Not Acceptable"
    case 407 => "Proxy Authentication Required"
    case 408 => "Request Timeout"
    case 409 => "Conflict"
    case 410 => "Gone"
    case 411 => "Length Required"
    case 412 => "Precondition Failed"
    case 413 => "Payload Too Large"
    case 414 => "URI Too Long"
    case 415 => "Unsupported Media Type"
    case 416 => "Range Not Satisfiable"
    case 417 => "Expectation Failed"
    case 418 => "I'm a Teapot"
    case 421 => "Misdirected Request"
    case 422 => "Unprocessable Entity"
    case 423 => "Locked"
    case 424 => "Failed Dependency"
    case 425 => "Too Early"
    case 426 => "Upgrade Required"
    case 428 => "Precondition Required"
    case 429 => "Too Many Requests"
    case 431 => "Request Header Fields Too Large"
    case 451 => "Unavailable For Legal Reasons"
    case 500 => "Internal Server Error"
    case 501 => "Not Implemented"
    case 502 => "Bad Gateway"
    case 503 => "Service Unavailable"
    case 504 => "Gateway Timeout"
    case 505 => "HTTP Version Not Supported"
    case 506 => "Variant Also Negotiates"
    case 507 => "Insufficient Storage"
    case 508 => "Loop Detected"
    case 509 => "Bandwidth Limit Exceeded"
    case 510 => "Not Extended"
    case 511 => "Network Authentication Required"
    case _ => "undefined"
  }

  // ---------------------------------------------------------------- JSON bodies

  /** One field of a performance-counter group, as text. */
  datatype PerfField = PerfField(name: string, value: string)

  /** `lines[i].perf[key]`: the fields of one counter, in enumeration order. */
  datatype PerfGroup = PerfGroup(key: string, fields: seq<PerfField>)

  /** One result line of a check: its message and its counters in enumeration order. */
  datatype Line = Line(message: string, perf: seq<PerfGroup>)

  /**
   * The parsed answer of the agent (`ret.jdata`), reduced to the members
   * the parsers read: `name` and `version` of the identity answer,
   * `command`, `result` and `lines` of a check answer.
   */
  datatype Body = Body(name: string, version: string, command: string, result: int, lines: seq<Line>)

  // ---------------------------------------------------------------- outcome of one request

  /**
   * What `httpsGetAsync` resolves with: the transport error code and text
   * (`""` when there was none), the HTTP status (`408` after a timeout,
   * `0` when none was received) and the parsed body.
   */
  datatype Outcome = Outcome(errCode: string, errText: string, httpCode: Status, data: Body)

  /** An HTTP status code: the three digits of a response line, or `0` when none was received. */
  type Status = n: nat | n < 1000

  /** A GET of the query `query` of the agent at the base URL `base`. */
  datatype Request = Request(base: string, query: Query)

  /** The URL the request is sent to: `ctx.url + QUERIES[q].query`. */
  function RequestUrl(r: Request): string {
    r.base + QueryPath(r.query)
  }

  /** The network, seen as the outcome of a request under a timeout (ms). */
  type Net = (Request, int) -> Outcome

  /** `ret.jdata` after `executeQuery`: the body exactly when no transport error and status 200. */
  function Classify(o: Outcome): (r: Option<Body>)
    ensures r.Some? <==> o.errCode == "" && o.httpCode == 200
    ensures r.Some? ==> r.value == o.data
  {
    if o.errCode != "" then None
    else if o.httpCode != 200 then None
    else Some(o.data)
  }

  /** The message `executeQuery` hands to `handleOffline` for a failed request. */
  function FailureText(o: Outcome): string {
    if o.errCode != "" then o.errCode + " - " + o.errText
    else "HTTP error [" + IntToString(o.httpCode) + "] " + HttpReason(o.httpCode)
  }

  /** A 404 fails with the reason text "Not Found". */
  lemma NotFoundText(o: Outcome)
    requires o.errCode == "" && o.httpCode == 404
    ensures Classify(o) == None
    ensures FailureText(o) == "HTTP error [404] Not Found"
  {
    assert NatToString(404) == "404" by {
      assert NatToString(40) == "40" by { assert NatToString(4) == "4"; }
    }
  }
}
