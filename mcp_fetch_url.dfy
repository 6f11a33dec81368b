/** The JSON-RPC server that offers only `fetch_url`, with its command-line mode
    (`fetch_url <URL>` prints one page) and its stdin loop. It keeps no state between lines. */
module FetchUrlServer {
  import opened Json
  import opened Exceptions
  import opened Rpc
  import opened Stdio

  const FetchTimeout: nat := 5

  /** `requests.get(url, timeout=5).text` with no status check: the body of every response,
      whatever its status, and "Erro: " and the message of an exception otherwise. */
  function FetchUrl(net: HttpGet -> HttpOutcome, url: Json): (result: string)
    ensures net(HttpGet(Show(url), Seconds(FetchTimeout))).Response? ==>
      result == net(HttpGet(Show(url), Seconds(FetchTimeout))).text
    ensures net(HttpGet(Show(url), Seconds(FetchTimeout))).Failed? ==>
      result == "Erro: " + net(HttpGet(Show(url), Seconds(FetchTimeout))).message
  {
    match net(HttpGet(Show(url), Seconds(FetchTimeout)))
    case Response(_, _, _, text) => text
    case Failed(m) => "Erro: " + Describe(RequestException(m))
  }

  /** The lines answered with an error record: undecodable text, a value that is not a dict,
      and a `fetch_url` call whose params are not a dict. */
  predicate Rejected(d: Decoded) {
    d.NotJson? || !d.value.JObj?
    || (MethodOf(d.value.members) == JStr("fetch_url") && !ParamsOf(d.value.members).JObj?)
  }

  /** One turn of the stdin loop. */
  function HandleLine(loads: string -> Decoded, net: HttpGet -> HttpOutcome, line: string): (r: Record)
    ensures r.jsonrpc == "2.0"
    ensures r.payload.Error? <==> Rejected(loads(line))
    ensures r.payload.Error? ==> r.id == JNull
    ensures r.payload.Result? ==> r.id == RequestId(loads(line))
    ensures r.payload.Result? && MethodOf(loads(line).value.members) == JStr("fetch_url") ==>
      r.payload.result == FetchUrl(net, Get(ParamsOf(loads(line).value.members).members, "url", JNull))
    ensures r.payload.Result? && MethodOf(loads(line).value.members) != JStr("fetch_url") ==>
      r.payload.result == Unsupported(MethodOf(loads(line).value.members))
  {
    match loads(line)
    case NotJson(m) => ErrorReply(JSONDecodeError(m))
    case Parsed(v) =>
      if !v.JObj? then ErrorReply(AttributeError(TypeName(v)))
      else
        var name, params, id := MethodOf(v.members), ParamsOf(v.members), IdOf(v.members);
        if name == JStr("fetch_url") then
          if !params.JObj? then ErrorReply(AttributeError(TypeName(params)))
          else Reply(id, FetchUrl(net, Get(params.members, "url", JNull)))
        else Reply(id, Unsupported(name))
  }

  /** The records the loop writes for `lines`: one per line, each depending on its line only. */
  function Answers(loads: string -> Decoded, net: HttpGet -> HttpOutcome, lines: seq<string>): seq<Record> {
    seq(|lines|, k requires 0 <= k < |lines| => HandleLine(loads, net, lines[k]))
  }

  /** The server answers a stream cut at a line end as it answers the two parts one after the
      other: no line's record depends on another line. */
  lemma AnswersSplit(loads: string -> Decoded, net: HttpGet -> HttpOutcome, a: string, b: string)
    requires a == "" || a[|a| - 1] == '\n'
    ensures Answers(loads, net, Lines(a + b)) == Answers(loads, net, Lines(a)) + Answers(loads, net, Lines(b))
  {
    LinesAppend(a, b);
  }

  /** The stdin loop: read until `readline` returns "", answering each line. */
  method Serve(stdin: string, loads: string -> Decoded, net: HttpGet -> HttpOutcome) returns (out: seq<Record>)
    ensures out == Answers(loads, net, Lines(stdin))
  {
    var rest := stdin;
    out := [];
    ghost var done: seq<string> := [];
    while true
      invariant Lines(stdin) == done + Lines(rest)
      invariant out == Answers(loads, net, done)
      decreases |rest|
    {
      var line := ReadLine(rest);
      if line == "" {
        assert done + [] == done;
        break;
      }
      var record := HandleLine(loads, net, line);
      assert Lines(rest) == [line] + Lines(rest[|line|..]);
      assert done + Lines(rest) == (done + [line]) + Lines(rest[|line|..]);
      assert Answers(loads, net, done + [line]) == Answers(loads, net, done) + [record];
      rest := rest[|line|..];
      out := out + [record];
      done := done + [line];
    }
  }

  /** `main`: with arguments, `fetch_url <URL>` prints the page (or the error) and anything
      else prints the usage line, without reading stdin; with none, run the stdin loop. */
  method Start(argv: seq<string>, stdin: string, loads: string -> Decoded, net: HttpGet -> HttpOutcome)
    returns (out: seq<OutLine>)
    ensures |argv| > 2 && argv[1] == "fetch_url" ==> out == [Plain(FetchUrl(net, JStr(argv[2])))]
    ensures |argv| > 1 && !(|argv| > 2 && argv[1] == "fetch_url") ==>
      out == [Plain("Uso: python mcp_local.py fetch_url <URL>")]
    ensures |argv| <= 1 ==> out == RpcLines(Answers(loads, net, Lines(stdin)))
  {
    if |argv| > 1 {
      if argv[1] == "fetch_url" && |argv| > 2 {
        out := [Plain(FetchUrl(net, JStr(argv[2])))];
      } else {
        out := [Plain("Uso: python mcp_local.py fetch_url <URL>")];
      }
      return;
    }
    var records := Serve(stdin, loads, net);
    out := RpcLines(records);
  }
}
