/** How the three servers differ on the same request: only the `save_file` server checks the
    HTTP status and offers `save_file`; on everything else their records agree. */
module Variants {
  import Text
  import Exceptions
  import opened Json
  import opened Rpc
  import opened FileSystem
  import SaveFileServer
  import FetchUrlServer

  function FetchRequest(url: Json): Json {
    JObj([("method", JStr("fetch_url")), ("params", JObj([("url", url)])), ("id", JNum("1"))])
  }

  lemma FetchRequestFields(url: Json)
    ensures MethodOf(FetchRequest(url).members) == JStr("fetch_url")
    ensures ParamsOf(FetchRequest(url).members) == JObj([("url", url)])
    ensures IdOf(FetchRequest(url).members) == JNum("1")
    ensures Get([("url", url)], "url", JNull) == url
  {
    assert "method"[0] != "params"[0] && "method"[0] != "id"[0] && "params"[0] != "id"[0];
    GetThree("method", JStr("fetch_url"), "params", JObj([("url", url)]), "id", JNum("1"), "method", JNull);
    GetThree("method", JStr("fetch_url"), "params", JObj([("url", url)]), "id", JNum("1"), "params", JObj([]));
    GetThree("method", JStr("fetch_url"), "params", JObj([("url", url)]), "id", JNum("1"), "id", JNull);
    GetOne("url", url, "url", JNull);
  }

  lemma Str404()
    ensures Text.IntToString(404) == "404"
  {
    assert Text.DigitChar(4) == '4' && Text.DigitChar(0) == '0';
    assert Text.NatToString(4) == "4";
    assert Text.NatToString(40) == Text.NatToString(4) + [Text.DigitChar(0)];
    assert Text.NatToString(404) == Text.NatToString(40) + [Text.DigitChar(4)];
  }

  lemma StatusErrorShape(url: string, code: string)
    requires Text.IntToString(404) == code
    ensures Exceptions.Describe(StatusError(404, "Not Found", url)) == code + " Client Error: " + "Not Found" + " for url: " + url
  {
  }

  lemma JoinedText(url: string, m: string)
    requires m == "404" + " Client Error: " + "Not Found" + " for url: " + url
    ensures m == "404 Client Error: Not Found for url: " + url
  {
  }

  /** The message `raise_for_status` gives a 404 response. */
  lemma Status404Text(url: string)
    ensures Exceptions.Describe(StatusError(404, "Not Found", url)) == "404 Client Error: Not Found for url: " + url
  {
    Str404();
    StatusErrorShape(url, "404");
    JoinedText(url, Exceptions.Describe(StatusError(404, "Not Found", url)));
  }

  /** What the `save_file` server writes for a `fetch_url` request, given what its fetch gives. */
  lemma SaveServerFetch(disk: Disk, loads: string -> Decoded, net: HttpGet -> HttpOutcome, line: string, url: string)
    requires loads(line) == Parsed(FetchRequest(JStr(url)))
    ensures SaveFileServer.HandleLine(disk, loads, net, line).0 == Reply(JNum("1"), SaveFileServer.FetchUrl(net, JStr(url)))
  {
    FetchRequestFields(JStr(url));
  }

  /** What the `fetch_url` server writes for a `fetch_url` request. */
  lemma FetchServerFetch(loads: string -> Decoded, net: HttpGet -> HttpOutcome, line: string, url: string)
    requires loads(line) == Parsed(FetchRequest(JStr(url)))
    ensures FetchUrlServer.HandleLine(loads, net, line) == Reply(JNum("1"), FetchUrlServer.FetchUrl(net, JStr(url)))
  {
    FetchRequestFields(JStr(url));
  }

  /** The `save_file` server's record for a `fetch_url` request answered with a 404. */
  lemma SaveServerOn404(disk: Disk, loads: string -> Decoded, net: HttpGet -> HttpOutcome, line: string, url: string)
    requires loads(line) == Parsed(FetchRequest(JStr(url)))
    requires net(HttpGet(url, Seconds(15))) == Response(404, "Not Found", url, "missing")
    ensures SaveFileServer.HandleLine(disk, loads, net, line).0
         == Reply(JNum("1"), SaveFileServer.FetchErrorText(JStr(url), StatusError(404, "Not Found", url)))
  {
    assert Show(JStr(url)) == url;
    SaveServerFetch(disk, loads, net, line, url);
  }

  lemma FetchErrorText404(url: string)
    ensures SaveFileServer.FetchErrorText(JStr(url), StatusError(404, "Not Found", url))
         == "Erro ao acessar URL " + url + ": " + "404 Client Error: Not Found for url: " + url
  {
    assert Show(JStr(url)) == url;
    Status404Text(url);
  }

  /** On an error status the `save_file` server reports the failure while the `fetch_url`
      server passes the error page on as the result. */
  lemma ErrorStatusDiffers(disk: Disk, loads: string -> Decoded, net: HttpGet -> HttpOutcome, line: string, url: string)
    requires loads(line) == Parsed(FetchRequest(JStr(url)))
    requires net(HttpGet(url, Seconds(15))) == Response(404, "Not Found", url, "missing")
    requires net(HttpGet(url, Seconds(5))) == Response(404, "Not Found", url, "missing")
    ensures SaveFileServer.HandleLine(disk, loads, net, line).0
         == Reply(JNum("1"), "Erro ao acessar URL " + url + ": " + "404 Client Error: Not Found for url: " + url)
    ensures FetchUrlServer.HandleLine(loads, net, line) == Reply(JNum("1"), "missing")
  {
    SaveServerOn404(disk, loads, net, line, url);
    FetchErrorText404(url);
    assert Show(JStr(url)) == url;
    FetchServerFetch(loads, net, line, url);
  }

  /** On a status below 400 both servers give the body. */
  lemma SuccessAgrees(disk: Disk, loads: string -> Decoded, net: HttpGet -> HttpOutcome, line: string, url: string, r: HttpOutcome)
    requires loads(line) == Parsed(FetchRequest(JStr(url)))
    requires r.Response? && r.status < 400
    requires net(HttpGet(url, Seconds(15))) == r && net(HttpGet(url, Seconds(5))) == r
    ensures SaveFileServer.HandleLine(disk, loads, net, line).0 == FetchUrlServer.HandleLine(loads, net, line)
    ensures FetchUrlServer.HandleLine(loads, net, line) == Reply(JNum("1"), r.text)
  {
    assert Show(JStr(url)) == url;
    SaveServerFetch(disk, loads, net, line, url);
    FetchServerFetch(loads, net, line, url);
  }

  /** A `save_file` call is a tool call only for the `save_file` server; the `fetch_url`
      server answers it as an unknown method, whatever its params, and writes nothing. */
  lemma SaveFileUnknownToFetchServer(loads: string -> Decoded, net: HttpGet -> HttpOutcome, line: string, request: seq<(string, Json)>)
    requires loads(line) == Parsed(JObj(request))
    requires MethodOf(request) == JStr("save_file")
    ensures FetchUrlServer.HandleLine(loads, net, line)
         == Reply(IdOf(request), "Método " + "save_file" + " não suportado.")
  {
    assert "save_file"[0] != "fetch_url"[0];
    assert Show(JStr("save_file")) == "save_file";
  }
}
