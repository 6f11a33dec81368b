/** The JSON-RPC tool server with `fetch_url` and `save_file` and its two entry points: a
    one-shot fetch of the first command-line argument, and the stdin loop that answers every
    line with exactly one record. The filesystem and the output are threaded through as values. */
module SaveFileServer {
  import opened Text
  import opened Paths
  import opened Json
  import opened Exceptions
  import opened Rpc
  import opened Stdio
  import opened FileSystem

  const FetchTimeout: nat := 15

  predicate IsTool(name: Json) {
    name == JStr("fetch_url") || name == JStr("save_file")
  }

  function FetchErrorText(url: Json, e: Exc): string {
    "Erro ao acessar URL " + Show(url) + ": " + Describe(e)
  }

  /** The `fetch_url` tool: the body of a response that is not a client or server error;
      any other outcome becomes a diagnostic result naming the url. */
  function FetchUrl(net: HttpGet -> HttpOutcome, url: Json): (result: string)
    ensures net(HttpGet(Show(url), Seconds(FetchTimeout))).Response?
              && !RaisesForStatus(net(HttpGet(Show(url), Seconds(FetchTimeout))).status)
            ==> result == net(HttpGet(Show(url), Seconds(FetchTimeout))).text
    ensures net(HttpGet(Show(url), Seconds(FetchTimeout))).Failed?
              || RaisesForStatus(net(HttpGet(Show(url), Seconds(FetchTimeout))).status)
            ==> "Erro ao acessar URL " + Show(url) + ": " <= result
  {
    match net(HttpGet(Show(url), Seconds(FetchTimeout)))
    case Failed(m) => FetchErrorText(url, RequestException(m))
    case Response(status, reason, finalUrl, text) =>
      if RaisesForStatus(status) then FetchErrorText(url, StatusError(status, reason, finalUrl)) else text
  }

  function PathOf(params: seq<(string, Json)>): Json { Get(params, "path", JNull) }
  function ContentOf(params: seq<(string, Json)>): Json { Get(params, "content", JStr("")) }

  function SaveErrorText(path: Json, e: Exc): string {
    "Erro ao salvar arquivo " + Show(path) + ": " + Describe(e)
  }

  /** The `TypeError` `os.path.dirname` raises for a path that is not a string. */
  function PathTypeError(path: Json): Exc {
    TypeError("expected str, bytes or os.PathLike object, not " + TypeName(path))
  }

  /** The `TypeError` `f.write` raises for content that is not a string. */
  function ContentTypeError(content: Json): Exc {
    TypeError("write() argument must be str, not " + (if content.JNull? then "None" else TypeName(content)))
  }

  /** When `save_file` writes: the path is a string with a directory part, no directory it
      needs is an existing file, the path is not a directory and may be written, and the
      content is a string. */
  predicate SaveSucceeds(disk: Disk, params: seq<(string, Json)>) {
    var path := PathOf(params);
    path.JStr? && ContentOf(params).JStr? &&
    var p := path.s;
    var d := Dirname(p);
    d != "" && (forall c :: c in Created(d) ==> c !in disk.files)
    && !EndsWith(p, "/") && p !in disk.dirs + Created(d) && p !in disk.readOnly
  }

  datatype Saved = Saved(result: string, disk: Disk)

  /** The `save_file` tool: create the parent directories, then open the file for writing
      (which empties it) and write the content. Every failure is reported in the result. */
  function SaveFile(disk: Disk, params: seq<(string, Json)>): Saved {
    var path := PathOf(params);
    var content := ContentOf(params);
    if !path.JStr? then Saved(SaveErrorText(path, PathTypeError(path)), disk)
    else
      var p := path.s;
      match MakeDirs(disk, Dirname(p))
      case Raised(e) => Saved(SaveErrorText(path, e), disk)
      case Ok(made) =>
        match OpenForWrite(made, p)
        case Raised(e) => Saved(SaveErrorText(path, e), made)
        case Ok(emptied) =>
          if content.JStr? then Saved("Arquivo salvo: " + p, WriteText(emptied, p, content.s))
          else Saved(SaveErrorText(path, ContentTypeError(content)), emptied)
  }

  /** When the save can succeed, the file holds exactly the content afterwards, the parent
      directories exist, and the result confirms the path. */
  lemma SaveFileWrites(disk: Disk, params: seq<(string, Json)>)
    requires SaveSucceeds(disk, params)
    ensures var r := SaveFile(disk, params);
      r.result == "Arquivo salvo: " + PathOf(params).s
      && r.disk == disk.(files := disk.files[PathOf(params).s := ContentOf(params).s],
                         dirs := disk.dirs + Created(Dirname(PathOf(params).s)))
  {
    var p := PathOf(params).s;
    var d := Dirname(p);
    assert MakeDirs(disk, d) == Ok(disk.(dirs := disk.dirs + Created(d)));
    var made := disk.(dirs := disk.dirs + Created(d));
    assert d in Created(d);
    assert OpenForWrite(made, p) == Ok(made.(files := made.files[p := ""]));
    assert disk.files[p := ""][p := ContentOf(params).s] == disk.files[p := ContentOf(params).s];
  }

  /** Every failure, among them a path without a directory part, a missing or non-string
      path and a write error, is a result that starts with the diagnostic for the path. */
  lemma SaveFileReportsFailure(disk: Disk, params: seq<(string, Json)>)
    requires !SaveSucceeds(disk, params)
    ensures "Erro ao salvar arquivo " + Show(PathOf(params)) + ": " <= SaveFile(disk, params).result
  {
    var path := PathOf(params);
    if path.JStr? {
      var p := path.s;
      var d := Dirname(p);
      match MakeDirs(disk, d)
      case Raised(_) =>
      case Ok(made) =>
        match OpenForWrite(made, p)
        case Raised(_) =>
        case Ok(_) =>
          assert d in made.dirs;
          assert !ContentOf(params).JStr?;
    }
  }

  /** `save_file` touches only its own path: every other file keeps its content, directories
      are only added, and the protected files stay as they are. */
  lemma SaveFileFrame(disk: Disk, params: seq<(string, Json)>)
    ensures var r := SaveFile(disk, params);
      r.disk.readOnly == disk.readOnly && disk.dirs <= r.disk.dirs
      && r.disk.files - {Show(PathOf(params))} == disk.files - {Show(PathOf(params))}
  {
    var path := PathOf(params);
    if path.JStr? {
      var p := path.s;
      var made := MakeDirs(disk, Dirname(p));
      if made.Ok? {
        var emptied := OpenForWrite(made.value, p);
        if emptied.Ok? {
          UpdateOthers(disk.files, p, "");
          if ContentOf(params).JStr? {
            UpdateOthers(disk.files[p := ""], p, ContentOf(params).s);
            UpdateOthers(disk.files, p, ContentOf(params).s);
          }
        }
      }
    }
  }

  /** A path with no `/` (for which `os.makedirs("")` fails) or a path that is not a string
      changes nothing at all. */
  lemma SaveFileWithoutDirectory(disk: Disk, params: seq<(string, Json)>)
    requires !PathOf(params).JStr? || '/' !in PathOf(params).s
    ensures SaveFile(disk, params).disk == disk
  {
    if PathOf(params).JStr? {
      DirnameEmpty(PathOf(params).s);
    }
  }

  /** `save_file` keeps a filesystem in which no path is both a file and a directory. */
  lemma SaveFilePreservesValid(disk: Disk, params: seq<(string, Json)>)
    requires Valid(disk)
    ensures Valid(SaveFile(disk, params).disk)
  {
    var path := PathOf(params);
    if path.JStr? {
      var p := path.s;
      match MakeDirs(disk, Dirname(p))
      case Raised(_) =>
      case Ok(made) =>
        assert forall c :: c in Created(Dirname(p)) ==> c !in disk.files;
        assert Valid(made);
        match OpenForWrite(made, p)
        case Raised(_) =>
        case Ok(emptied) =>
          assert p !in made.dirs;
          assert Valid(emptied);
    }
  }

  lemma DirnameOfExample()
    ensures Dirname("a/b/c.txt") == "a/b"
  {
    var p := "a/b/c.txt";
    assert LastIndexOf(p, '/') == 3 by {
      assert p[3] == '/' && '/' !in p[4..];
    }
    assert p[..4] == "a/b/";
    assert "a/b/"[0] != '/';
    assert RStripChar("a/b/", '/') == RStripChar("a/b", '/') == "a/b";
  }

  lemma CreatedOfExample()
    ensures Created("a/b") == {"a", "a/b"}
  {
    var s := "a/b";
    var inner := set i | 0 < i < |s| && s[i] == '/' :: s[..i];
    assert s[1] == '/' && s[..1] == "a";
    assert "a" in inner;
    forall c | c in inner ensures c == "a" {
      var i :| 0 < i < |s| && s[i] == '/' && c == s[..i];
      assert i == 1;
    }
    assert inner == {"a"};
  }

  lemma ExampleParams()
    ensures PathOf([("path", JStr("a/b/c.txt")), ("content", JStr("hello"))]) == JStr("a/b/c.txt")
    ensures ContentOf([("path", JStr("a/b/c.txt")), ("content", JStr("hello"))]) == JStr("hello")
  {
    assert "path"[0] != "content"[0];
    GetTwo("path", JStr("a/b/c.txt"), "content", JStr("hello"), "path", JNull);
    GetTwo("path", JStr("a/b/c.txt"), "content", JStr("hello"), "content", JStr(""));
  }

  lemma ExampleSucceeds()
    ensures SaveSucceeds(Disk(map[], {}, {}), [("path", JStr("a/b/c.txt")), ("content", JStr("hello"))])
  {
    ExampleParams();
    DirnameOfExample();
    CreatedOfExample();
    assert !EndsWith("a/b/c.txt", "/") by {
      assert "a/b/c.txt"[8] != '/';
    }
    assert "a/b/c.txt" !in {"a", "a/b"};
  }

  /** Saving `a/b/c.txt` on an empty disk creates `a` and `a/b` and leaves `hello` in the file. */
  lemma SaveIntoNewTree()
    ensures var r := SaveFile(Disk(map[], {}, {}), [("path", JStr("a/b/c.txt")), ("content", JStr("hello"))]);
      r.result == "Arquivo salvo: " + "a/b/c.txt"
      && r.disk.files == map["a/b/c.txt" := "hello"] && r.disk.dirs == {"a", "a/b"}
  {
    var params := [("path", JStr("a/b/c.txt")), ("content", JStr("hello"))];
    var empty := Disk(map[], {}, {});
    ExampleParams();
    ExampleSucceeds();
    DirnameOfExample();
    CreatedOfExample();
    SaveFileWrites(empty, params);
    var r := SaveFile(empty, params);
    assert r.disk.files == map[]["a/b/c.txt" := "hello"];
    assert r.disk.dirs == {} + {"a", "a/b"};
  }

  /** Saving twice to the same path leaves only the second content, whatever the first. */
  lemma SecondSaveWins(disk: Disk, p: string, first: string, second: string)
    requires SaveSucceeds(disk, [("path", JStr(p)), ("content", JStr(first))])
    ensures var once := SaveFile(disk, [("path", JStr(p)), ("content", JStr(first))]).disk;
      var twice := SaveFile(once, [("path", JStr(p)), ("content", JStr(second))]);
      twice.result == "Arquivo salvo: " + p && twice.disk.files == disk.files[p := second]
  {
    var p1 := [("path", JStr(p)), ("content", JStr(first))];
    var p2 := [("path", JStr(p)), ("content", JStr(second))];
    assert "path"[0] != "content"[0];
    GetTwo("path", JStr(p), "content", JStr(first), "path", JNull);
    GetTwo("path", JStr(p), "content", JStr(first), "content", JStr(""));
    GetTwo("path", JStr(p), "content", JStr(second), "path", JNull);
    GetTwo("path", JStr(p), "content", JStr(second), "content", JStr(""));
    SaveFileWrites(disk, p1);
    var once := SaveFile(disk, p1).disk;
    var d := Dirname(p);
    assert once.dirs == disk.dirs + Created(d);
    assert forall c :: c in Created(d) ==> c !in once.files by {
      forall c | c in Created(d) ensures c !in once.files {
        assert c != p by { assert p !in Created(d); }
      }
    }
    assert SaveSucceeds(once, p2);
    SaveFileWrites(once, p2);
  }

  /** What a call of `process_request` does: print one record and leave a new filesystem,
      or let an exception escape to the caller before touching anything. */
  datatype Step = Printed(record: Record, disk: Disk) | Escaped(exc: Exc)

  /** `process_request`: dispatch on an exact match of the method name. */
  function ProcessRequest(disk: Disk, net: HttpGet -> HttpOutcome, name: Json, params: Json, id: Json): (s: Step)
    ensures s.Printed? ==> s.record.jsonrpc == "2.0" && s.record.id == id && s.record.payload.Result?
    ensures s.Escaped? <==> IsTool(name) && !params.JObj?
    ensures s.Escaped? ==> s.exc == AttributeError(TypeName(params))
    ensures name != JStr("save_file") && s.Printed? ==> s.disk == disk
    ensures !IsTool(name) ==> s == Printed(Reply(id, "Método " + Show(name) + " não suportado."), disk)
  {
    if name == JStr("fetch_url") then
      if !params.JObj? then Escaped(AttributeError(TypeName(params)))
      else Printed(Reply(id, FetchUrl(net, Get(params.members, "url", JNull))), disk)
    else if name == JStr("save_file") then
      if !params.JObj? then Escaped(AttributeError(TypeName(params)))
      else var saved := SaveFile(disk, params.members); Printed(Reply(id, saved.result), saved.disk)
    else Printed(Reply(id, Unsupported(name)), disk)
  }

  /** The lines the loop answers with an error record: undecodable text, a value that is not
      a dict, and a tool call whose params are not a dict. */
  predicate Rejected(d: Decoded) {
    d.NotJson? || !d.value.JObj?
    || (IsTool(MethodOf(d.value.members)) && !ParamsOf(d.value.members).JObj?)
  }

  /** One turn of the stdin loop: decode the line, process it, and turn anything that
      escapes into an error record. */
  function HandleLine(disk: Disk, loads: string -> Decoded, net: HttpGet -> HttpOutcome, line: string): (r: (Record, Disk))
    ensures r.0.jsonrpc == "2.0"
    ensures r.0.payload.Error? <==> Rejected(loads(line))
    ensures r.0.payload.Error? ==> r.0.id == JNull && r.1 == disk
    ensures r.0.payload.Result? ==> r.0.id == RequestId(loads(line))
  {
    match loads(line)
    case NotJson(m) => (ErrorReply(JSONDecodeError(m)), disk)
    case Parsed(v) =>
      if !v.JObj? then (ErrorReply(AttributeError(TypeName(v))), disk)
      else
        match ProcessRequest(disk, net, MethodOf(v.members), ParamsOf(v.members), IdOf(v.members))
        case Printed(record, after) => (record, after)
        case Escaped(e) => (ErrorReply(e), disk)
  }

  /** A decoded `save_file` call with dict params, whatever its other members, is answered
      with the request's id and `save_file`'s result, on the filesystem `save_file` leaves. */
  lemma SaveFileLine(disk: Disk, loads: string -> Decoded, net: HttpGet -> HttpOutcome, line: string, req: seq<(string, Json)>)
    requires loads(line) == Parsed(JObj(req))
    requires MethodOf(req) == JStr("save_file") && ParamsOf(req).JObj?
    ensures var saved := SaveFile(disk, ParamsOf(req).members);
      HandleLine(disk, loads, net, line) == (Reply(IdOf(req), saved.result), saved.disk)
  {
  }

  /** A decoded `fetch_url` call with dict params is answered with the request's id and the
      fetch of its `url`, and leaves the filesystem as it was. */
  lemma FetchUrlLine(disk: Disk, loads: string -> Decoded, net: HttpGet -> HttpOutcome, line: string, req: seq<(string, Json)>)
    requires loads(line) == Parsed(JObj(req))
    requires MethodOf(req) == JStr("fetch_url") && ParamsOf(req).JObj?
    ensures HandleLine(disk, loads, net, line)
         == (Reply(IdOf(req), FetchUrl(net, Get(ParamsOf(req).members, "url", JNull))), disk)
  {
  }

  /** The records the loop writes for `lines`, in order, and the filesystem it leaves. */
  function Run(disk: Disk, loads: string -> Decoded, net: HttpGet -> HttpOutcome, lines: seq<string>): (r: (seq<Record>, Disk))
    ensures |r.0| == |lines|
    decreases |lines|
  {
    if lines == [] then ([], disk)
    else
      var (record, after) := HandleLine(disk, loads, net, lines[0]);
      var rest := Run(after, loads, net, lines[1..]);
      ([record] + rest.0, rest.1)
  }

  /** One record per line, in order: a JSON-RPC 2.0 record that is an error exactly when its
      line is rejected, with id null on errors and the request's id otherwise. */
  lemma {:induction false} RunAnswersEveryLine(disk: Disk, loads: string -> Decoded, net: HttpGet -> HttpOutcome, lines: seq<string>)
    ensures var r := Run(disk, loads, net, lines);
      |r.0| == |lines|
      && (forall k :: 0 <= k < |lines| ==> r.0[k].jsonrpc == "2.0")
      && (forall k :: 0 <= k < |lines| ==> (r.0[k].payload.Error? <==> Rejected(loads(lines[k]))))
      && (forall k :: 0 <= k < |lines| ==>
            r.0[k].id == (if r.0[k].payload.Error? then JNull else RequestId(loads(lines[k]))))
    decreases |lines|
  {
    if lines != [] {
      var h := HandleLine(disk, loads, net, lines[0]);
      RunAnswersEveryLine(h.1, loads, net, lines[1..]);
      var rest := Run(h.1, loads, net, lines[1..]);
      var r := Run(disk, loads, net, lines);
      assert r.0 == [h.0] + rest.0;
      forall k | 0 < k < |lines| ensures r.0[k] == rest.0[k - 1] && lines[k] == lines[1..][k - 1] {
      }
    }
  }

  /** Answering one more line appends its record to those of the lines before it. */
  lemma {:induction false} RunSnoc(disk: Disk, loads: string -> Decoded, net: HttpGet -> HttpOutcome, lines: seq<string>, line: string)
    ensures var before := Run(disk, loads, net, lines);
      var h := HandleLine(before.1, loads, net, line);
      Run(disk, loads, net, lines + [line]) == (before.0 + [h.0], h.1)
    decreases |lines|
  {
    if lines == [] {
      assert lines + [line] == [line];
      var h := HandleLine(disk, loads, net, line);
      assert [line][1..] == [];
      assert Run(h.1, loads, net, []) == ([], h.1);
      assert Run(disk, loads, net, [line]) == ([h.0] + [], h.1);
      assert [] + [h.0] == [h.0] + [];
    } else {
      var first := HandleLine(disk, loads, net, lines[0]);
      var tail := Run(first.1, loads, net, lines[1..]);
      assert Run(disk, loads, net, lines) == ([first.0] + tail.0, tail.1);
      assert (lines + [line])[0] == lines[0];
      assert (lines + [line])[1..] == lines[1..] + [line];
      RunSnoc(first.1, loads, net, lines[1..], line);
      var h := HandleLine(tail.1, loads, net, line);
      assert Run(disk, loads, net, lines + [line]) == ([first.0] + (tail.0 + [h.0]), h.1);
      assert [first.0] + (tail.0 + [h.0]) == ([first.0] + tail.0) + [h.0];
    }
  }

  /** Record `k` answers line `k`, on the filesystem the earlier lines left. */
  lemma {:induction false} RunAt(disk: Disk, loads: string -> Decoded, net: HttpGet -> HttpOutcome, lines: seq<string>, k: nat)
    requires k < |lines|
    ensures Run(disk, loads, net, lines).0[k]
         == HandleLine(Run(disk, loads, net, lines[..k]).1, loads, net, lines[k]).0
    decreases k
  {
    if k > 0 {
      var after := HandleLine(disk, loads, net, lines[0]).1;
      RunAt(after, loads, net, lines[1..], k - 1);
      assert lines[1..][..k - 1] == lines[..k][1..];
      assert lines[..k][0] == lines[0];
    }
  }

  /** One turn of the stdin loop keeps both loop invariants. */
  lemma ServeStep(stdin: string, rest: string, done: seq<string>, disk0: Disk, loads: string -> Decoded,
                  net: HttpGet -> HttpOutcome, out: seq<Record>, disk: Disk)
    requires ReadLine(rest) != ""
    requires Lines(stdin) == done + Lines(rest)
    requires (out, disk) == Run(disk0, loads, net, done)
    ensures var line := ReadLine(rest);
      var answered := HandleLine(disk, loads, net, line);
      Lines(stdin) == (done + [line]) + Lines(rest[|line|..])
      && out + [answered.0] == Run(disk0, loads, net, done + [line]).0
      && answered.1 == Run(disk0, loads, net, done + [line]).1
  {
    var line := ReadLine(rest);
    LinesStep(rest);
    RunSnoc(disk0, loads, net, done, line);
    AppendAssoc(done, [line], Lines(rest[|line|..]));
  }

  /** The stdin loop of `main`: read until `readline` returns "", answering each line. */
  method Serve(stdin: string, loads: string -> Decoded, net: HttpGet -> HttpOutcome, disk0: Disk)
    returns (out: seq<Record>, disk: Disk)
    ensures (out, disk) == Run(disk0, loads, net, Lines(stdin))
  {
    var rest := stdin;
    out, disk := [], disk0;
    ghost var done: seq<string> := [];
    while true
      invariant Lines(stdin) == done + Lines(rest)
      invariant (out, disk) == Run(disk0, loads, net, done)
      decreases |rest|
    {
      var line := ReadLine(rest);
      if line == "" {
        assert done + [] == done;
        break;
      }
      var answered := HandleLine(disk, loads, net, line);
      ServeStep(stdin, rest, done, disk0, loads, net, out, disk);
      rest := rest[|line|..];
      out, disk := out + [answered.0], answered.1;
      done := done + [line];
    }
  }

  /** `main`: with a command-line argument, print a header and the record of one `fetch_url`
      of it with id 1, without reading stdin; otherwise run the stdin loop. */
  method Start(argv: seq<string>, stdin: string, loads: string -> Decoded, net: HttpGet -> HttpOutcome, disk0: Disk)
    returns (out: seq<OutLine>, disk: Disk)
    ensures |argv| > 1 ==>
      disk == disk0
      && out == [Plain("=== Teste fetch_url para: " + argv[1] + " ==="),
                 Rpc(Reply(JNum("1"), FetchUrl(net, JStr(argv[1]))))]
    ensures |argv| <= 1 ==>
      var run := Run(disk0, loads, net, Lines(stdin));
      disk == run.1 && out == RpcLines(run.0)
  {
    if |argv| > 1 {
      var url := argv[1];
      var params := JObj([("url", JStr(url))]);
      var step := ProcessRequest(disk0, net, JStr("fetch_url"), params, JNum("1"));
      GetOne("url", JStr(url), "url", JNull);
      out := [Plain("=== Teste fetch_url para: " + url + " ==="), Rpc(step.record)];
      disk := disk0;
      return;
    }
    var records;
    records, disk := Serve(stdin, loads, net, disk0);
    out := RpcLines(records);
  }
}
