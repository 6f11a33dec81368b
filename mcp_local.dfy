/** The minimal server: no command-line mode, only the stdin loop. Its handling of a line
    (method dispatch, `fetch_url` with a five-second timeout and no status check, the error
    record) is the same as that of the `fetch_url` server's stdin mode, so that handling is
    used as is. */
module LocalServer {
  import opened Rpc
  import opened Stdio
  import FetchUrlServer

  /** `main`: answer every line of stdin, in order, with one printed record. */
  method Start(stdin: string, loads: string -> Decoded, net: HttpGet -> HttpOutcome) returns (out: seq<OutLine>)
    ensures out == RpcLines(FetchUrlServer.Answers(loads, net, Lines(stdin)))
  {
    var rest := stdin;
    out := [];
    ghost var done: seq<string> := [];
    while true
      invariant Lines(stdin) == done + Lines(rest)
      invariant out == RpcLines(FetchUrlServer.Answers(loads, net, done))
      decreases |rest|
    {
      var line := ReadLine(rest);
      if line == "" {
        assert done + [] == done;
        break;
      }
      var record := FetchUrlServer.HandleLine(loads, net, line);
      assert Lines(rest) == [line] + Lines(rest[|line|..]);
      assert done + Lines(rest) == (done + [line]) + Lines(rest[|line|..]);
      assert RpcLines(FetchUrlServer.Answers(loads, net, done + [line]))
          == RpcLines(FetchUrlServer.Answers(loads, net, done)) + [Rpc(record)];
      rest := rest[|line|..];
      out := out + [Rpc(record)];
      done := done + [line];
    }
  }
}
