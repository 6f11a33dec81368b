/** The project-generating agent script: its chunking size, the four files it asks the agent
    to generate, and the `save_file` requests it builds from the agent's answers. */
module AgentJavaParseCode {
  import opened Text
  import opened Paths
  import opened Json
  import opened Rpc
  import opened FileSystem
  import Chunking
  import SaveFileServer

  const ChunkSize: nat := 4000

  /** With the default size every chunk but the last holds exactly 4000 characters and the
      chunks join back to the text. */
  lemma DefaultChunking(text: string)
    ensures Concat(Chunking.Chunks(text, ChunkSize)) == text
    ensures forall k :: 0 <= k < |Chunking.Chunks(text, ChunkSize)| ==>
      0 < |Chunking.Chunks(text, ChunkSize)[k]| <= 4000
    ensures forall k :: 0 <= k < |Chunking.Chunks(text, ChunkSize)| - 1 ==>
      |Chunking.Chunks(text, ChunkSize)[k]| == 4000
  {
    Chunking.ChunksConcat(text, ChunkSize);
    Chunking.ChunksShape(text, ChunkSize);
  }

  /** A file to generate: where to save it and what to ask the agent for. */
  datatype FileTask = FileTask(path: string, prompt: string)

  /** Where the four generated files are saved, in order. */
  const TaskPaths: seq<string> := [
    "project/src/main/java/com/example/MainApplication.java",
    "project/src/main/java/com/example/controller/HelloController.java",
    "project/pom.xml",
    "project/README.md"]

  /** What the agent is asked for each file; the summarised code follows each request. */
  const TaskRequests: seq<string> := [
    "Generate a Spring Boot MainApplication.java class using the following code:\n",
    "Generate a REST controller HelloController.java using the following code:\n",
    "Generate a Maven pom.xml file for a Spring Boot project using the following code:\n",
    "Generate a README.md explaining how to build and run the project:\n"]

  /** The four file tasks, each prompt ending with the summarised code. */
  function FileTasks(summary: string): (tasks: seq<FileTask>)
    ensures |tasks| == 4
    ensures forall k :: 0 <= k < 4 ==> tasks[k].path == TaskPaths[k] && EndsWith(tasks[k].prompt, summary)
  {
    seq(4, k requires 0 <= k < 4 => FileTask(TaskPaths[k], TaskRequests[k] + summary))
  }

  /** Every task path has a directory part, so `save_file` does not fail on an empty one. */
  lemma TaskPathsHaveDirectory(summary: string)
    ensures forall k :: 0 <= k < |FileTasks(summary)| ==> Dirname(FileTasks(summary)[k].path) != ""
  {
    var tasks := FileTasks(summary);
    forall k | 0 <= k < 4 ensures Dirname(tasks[k].path) != "" {
      assert '/' in TaskPaths[k] by {
        if k == 0 {} else if k == 1 {} else if k == 2 {} else {}
      }
      DirnameEmpty(tasks[k].path);
    }
  }

  /** The request sent for one generated file. */
  function SaveTask(path: string, code: string): Json {
    JObj([("method", JStr("save_file")),
          ("params", JObj([("path", JStr(path)), ("content", JStr(code))])),
          ("id", JStr("1"))])
  }

  /** The loop over the file tasks: ask the agent for each file, in order, and build the
      request that saves its answer. */
  method BuildSaveRequests(tasks: seq<FileTask>, generate: string -> string) returns (requests: seq<Json>)
    ensures |requests| == |tasks|
    ensures forall k :: 0 <= k < |tasks| ==> requests[k] == SaveTask(tasks[k].path, generate(tasks[k].prompt))
  {
    requests := [];
    for i := 0 to |tasks|
      invariant |requests| == i
      invariant forall k :: 0 <= k < i ==> requests[k] == SaveTask(tasks[k].path, generate(tasks[k].prompt))
    {
      var code := generate(tasks[i].prompt);
      requests := requests + [SaveTask(tasks[i].path, code)];
    }
  }

  lemma SaveTaskFields(path: string, code: string)
    ensures MethodOf(SaveTask(path, code).members) == JStr("save_file")
    ensures ParamsOf(SaveTask(path, code).members) == JObj([("path", JStr(path)), ("content", JStr(code))])
    ensures IdOf(SaveTask(path, code).members) == JStr("1")
    ensures SaveFileServer.PathOf([("path", JStr(path)), ("content", JStr(code))]) == JStr(path)
    ensures SaveFileServer.ContentOf([("path", JStr(path)), ("content", JStr(code))]) == JStr(code)
  {
    var params := JObj([("path", JStr(path)), ("content", JStr(code))]);
    assert "method"[0] != "params"[0] && "method"[0] != "id"[0] && "params"[0] != "id"[0];
    GetThree("method", JStr("save_file"), "params", params, "id", JStr("1"), "method", JNull);
    GetThree("method", JStr("save_file"), "params", params, "id", JStr("1"), "params", JObj([]));
    GetThree("method", JStr("save_file"), "params", params, "id", JStr("1"), "id", JNull);
    assert "path"[0] != "content"[0];
    GetTwo("path", JStr(path), "content", JStr(code), "path", JNull);
    GetTwo("path", JStr(path), "content", JStr(code), "content", JStr(""));
  }

  /** A `save_file` server that receives one of these requests echoes id "1" and, when the
      write can succeed, leaves the generated code in the file at the task's path. As the script
      is written, `tools[0]` is a tool of the `mcp-server-fetch` server, so the request does not
      reach a `save_file` server; this lemma describes the evidently intended target. */
  lemma SaveTaskIsSaved(disk: Disk, loads: string -> Decoded, net: HttpGet -> HttpOutcome, line: string, path: string, code: string)
    requires loads(line) == Parsed(SaveTask(path, code))
    requires SaveFileServer.SaveSucceeds(disk, [("path", JStr(path)), ("content", JStr(code))])
    ensures SaveFileServer.HandleLine(disk, loads, net, line).0 == Reply(JStr("1"), "Arquivo salvo: " + path)
    ensures SaveFileServer.HandleLine(disk, loads, net, line).1.files == disk.files[path := code]
  {
    SaveTaskFields(path, code);
    SaveFileServer.SaveFileWrites(disk, [("path", JStr(path)), ("content", JStr(code))]);
  }
}
