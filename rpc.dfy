/** The JSON-RPC records the servers write, and the two collaborators they are given:
    the JSON decoder and the HTTP layer. */
module Rpc {
  import opened Text
  import opened Json
  import opened Exceptions

  /** A record carries exactly one of `result` and `error`. */
  datatype Payload = Result(result: string) | Error(error: string)

  /** `{"jsonrpc": ..., "id": ..., "result" | "error": ...}` as the dict given to `json.dumps`. */
  datatype Record = Record(jsonrpc: string, id: Json, payload: Payload)

  function Reply(id: Json, result: string): Record {
    Record("2.0", id, Result(result))
  }

  /** The record written when an exception escapes the handling of a line: the id is lost. */
  function ErrorReply(e: Exc): Record {
    Record("2.0", JNull, Error(Describe(e)))
  }

  /** What `json.loads(line)` gives: a failure with its message, or a value. */
  datatype Decoded = NotJson(message: string) | Parsed(value: Json)

  /** A line-oriented server writes records; its one-shot command-line mode writes plain text. */
  datatype OutLine = Plain(text: string) | Rpc(record: Record)

  datatype Timeout = NoTimeout | Seconds(n: nat)

  /** `requests.get(url, timeout=...)` as the HTTP layer receives it; the url is the `str()`
      of whatever the caller passed. */
  datatype HttpGet = HttpGet(url: string, timeout: Timeout)

  /** A response (status, reason phrase, final url, decoded body) or an exception from the
      HTTP layer, with its message. */
  datatype HttpOutcome =
    | Response(status: int, reason: string, finalUrl: string, text: string)
    | Failed(message: string)

  /** `response.raise_for_status()` raises for client and server errors only. */
  predicate RaisesForStatus(status: int) {
    400 <= status < 600
  }

  /** The `HTTPError` `raise_for_status` raises for a 4xx or 5xx response. */
  function StatusError(status: int, reason: string, finalUrl: string): Exc {
    var kind := if status < 500 then " Client Error: " else " Server Error: ";
    HTTPError(IntToString(status) + kind + reason + " for url: " + finalUrl)
  }

  /** The `method`, `params` and `id` a server reads from a decoded request dict:
      `request.get("method")`, `request.get("params", {})`, `request.get("id")`. */
  function MethodOf(request: seq<(string, Json)>): Json { Get(request, "method", JNull) }
  function ParamsOf(request: seq<(string, Json)>): Json { Get(request, "params", JObj([])) }
  function IdOf(request: seq<(string, Json)>): Json { Get(request, "id", JNull) }

  /** The result for a method a server does not provide; the name is shown as `str()` would. */
  function Unsupported(name: Json): string {
    "Método " + Show(name) + " não suportado."
  }

  /** The `id` of a decoded request dict, or null. */
  function RequestId(d: Decoded): Json {
    if d.Parsed? && d.value.JObj? then IdOf(d.value.members) else JNull
  }

  /** The records as written lines, in order. */
  function RpcLines(records: seq<Record>): (out: seq<OutLine>)
    ensures |out| == |records|
    ensures forall k :: 0 <= k < |out| ==> out[k] == Rpc(records[k])
  {
    seq(|records|, k requires 0 <= k < |records| => Rpc(records[k]))
  }
}
