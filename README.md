# python-mcp-integration, modelled in Dafny

A model of the core of the python-mcp-integration scripts, with proofs about it:

- **The line-oriented JSON-RPC tool servers.** There are three variants (`mcp_save_file.py`,
  `mcp_fetch_url.py` and `mcp_local.py`). Each reads stdin one line at a time until `readline`
  returns "". It decodes each line, dispatches on an exact match of `method` and writes exactly
  one record per line. A tool failure or an unknown method becomes a *successful* `result`. A
  decode failure, or an exception that escapes the tool, becomes an `error` record with `id`
  null. The `save_file` server also writes files. Its disk is an abstract one: a map from path
  to content, a set of directories and a set of protected files.
- **The agent scripts.** This covers `chunk_text`, written twice, and the four `save_file`
  requests that the project-generating agent builds from the agent's answers.
- **The Java snippet extractor.** This covers the `is_likely_java_code` heuristic, and the
  selector loop that keeps each stripped, Java-looking text once, in first-occurrence order.
- **The two GitHub downloaders.**
  - URL parsing and ZIP URLs.
  - The `main`-then-`master` branch fallback, and the single-branch download with its folder
    fallback.
  - The truncation rule of `read_file_safely`.
  - The listing rules of both project analyses: depth limits, five files per directory, the
    "more files" line, the key-file summary and the order of detected technologies.

Everything outside the program becomes a function parameter:

- the HTTP layer: `net`, which answers a request with a response (status, reason, final URL,
  body) or a failure;
- `json.loads`: `loads`, which gives undecodable text, or a value;
- what exists on disk after extraction: `present` and `onDisk`;
- file reads: `read` and `readAs`;
- tree walks: a given sequence of `(root, dirs, files)` entries, or `walkOf`;
- CSS selection: `select`;
- the agent: `generate`.

Each server's output is a sequence of records, and the filesystem is threaded through as a
value. A Python loop becomes a Dafny method with a loop. Each such method is proved equal to a
specification function, and the properties are lemmas about that function.

One module per source file:

| module | source file |
|---|---|
| `SaveFileServer` | `mcp_save_file.py` |
| `FetchUrlServer` | `mcp_fetch_url.py` |
| `LocalServer` | `mcp_local.py` |
| `Variants` | how the three servers differ |
| `Chunking` | `chunk_text` |
| `JavaCodeGenerator` | `java_code_generator.py` |
| `AgentJavaParseCode` | `agent_java_parse_code.py` |
| `JavaParserCode` | `java_parser_code.py` |
| `SimpleGitHubDownloader` | `simple_github_downloader.py` |
| `GitHubProjectDownloader` | `github_project_downloader.py` |

Shared modules:

- `Text`: Python `str` operations;
- `Paths`: `os.path`;
- `Json`: decoded values, `dict.get`, `str()` and `repr()`;
- `Exceptions`: exceptions and their `str()`;
- `Stdio`: `readline`;
- `Rpc`: records and HTTP requests;
- `FileSystem`;
- `Walk`: `os.walk` entries, levels and indentation;
- `GitHubUrl`.

Where the code and the documentation of the scripts disagree, the model follows the code:

- **`raise_for_status`.** It raises for statuses 400 to 599 only. So the `save_file` server
  returns the body of a 1xx or 3xx response too, not only that of a 2xx one (`Rpc.RaisesForStatus`).
- **`mcp_local.py`.** Its line handling is, line for line, that of the stdin mode of
  `mcp_fetch_url.py`. `LocalServer.Start` therefore reuses `FetchUrlServer`'s handling instead
  of copying it.
- **`Text.Split`.** It is defined from the last separator backwards, and gives the same parts as
  Python's `str.split` with a one-character separator.

## Model

| member | source | states |
|---|---|---|
| Stdio.ReadLine | mcp_save_file.py:45-47 | a line read is a prefix of the unread input, and it is "" exactly at end of stream |
| Stdio.LinesConcat | mcp_save_file.py:44-47 | reading line by line until "" consumes the whole input, in order, losing nothing |
| Stdio.LinesShape | mcp_save_file.py:44-47 | every line read is non-empty, holds a newline only as its last character, and every line but the last ends with one |
| Stdio.LinesCount | mcp_save_file.py:44-47 | the loop makes one turn per newline, plus one for unterminated text at the end |
| Stdio.BlankLineIsNotEnd | mcp_save_file.py:46-47 | an empty line "\n" is a line to answer, not the end of the stream |
| Stdio.LinesAppend | mcp_fetch_url.py:20-23 | input that stops at a line end is read as its own lines followed by the lines of what comes after |
| Paths.Basename | github_project_downloader.py:28 | `os.path.basename` holds no `/` and is a suffix of the path |
| Paths.DirnameEmpty | mcp_save_file.py:22 | `os.path.dirname(p)` is empty exactly when `p` has no `/` |
| FileSystem.MakeDirs | mcp_save_file.py:22 | `os.makedirs(d, exist_ok=True)` succeeds iff `d` is non-empty and none of the directories it creates is a file; it then adds exactly those directories |
| FileSystem.OpenForWrite | mcp_save_file.py:23 | `open(p, "w")` succeeds iff `p` is not a directory, does not end in `/`, has an existing parent and is not protected; it then empties the file and changes nothing else |
| SaveFileServer.FetchUrl | mcp_save_file.py:9-16 | a response that passes `raise_for_status` gives its body; a request failure or a 4xx/5xx status gives a result starting "Erro ao acessar URL {url}: " |
| SaveFileServer.SaveFileWrites | mcp_save_file.py:18-25 | when the save can succeed, the result is "Arquivo salvo: {path}", the file holds exactly the content (the content defaults to ""), the parent directories exist, and nothing else changes |
| SaveFileServer.SaveFileReportsFailure | mcp_save_file.py:21-27 | every failing save, including a missing or non-string path, a path without a directory part and a write error, gives a result starting "Erro ao salvar arquivo {path}: " |
| SaveFileServer.SaveFileFrame | mcp_save_file.py:18-27 | whatever happens, every file other than the given path keeps its content, directories are only added, and protected files stay protected |
| SaveFileServer.SaveFileWithoutDirectory | mcp_save_file.py:19-22 | a path with no `/` (so `os.makedirs("")` fails) or a non-string path leaves the filesystem exactly as it was |
| SaveFileServer.SaveFilePreservesValid | mcp_save_file.py:18-27 | a filesystem in which no path is both a file and a directory stays so after `save_file` |
| SaveFileServer.SaveIntoNewTree | mcp_save_file.py:18-25 | saving `a/b/c.txt` on an empty disk creates `a` and `a/b` and leaves exactly that one file with its content |
| SaveFileServer.SecondSaveWins | mcp_save_file.py:23-24 | saving twice to one path overwrites: only the second content remains, and every other file keeps its content |
| SaveFileServer.ProcessRequest | mcp_save_file.py:7-33 | a printed record is JSON-RPC "2.0", echoes the caller's id and carries a result; an exception escapes exactly when a tool reads non-dict params; only `save_file` changes the disk; an unknown method gives "Método {method} não suportado." with no fetch or write |
| SaveFileServer.HandleLine | mcp_save_file.py:48-56 | the record of a line is an error exactly when the line is undecodable, not a dict, or a tool call with non-dict params; an error has id null and changes nothing; otherwise the request's id is echoed |
| SaveFileServer.SaveFileLine | mcp_save_file.py:49-53 | any decoded `save_file` request with dict params, whatever else it holds, is answered with its own id and `save_file`'s result, and the loop goes on with the filesystem `save_file` left |
| SaveFileServer.FetchUrlLine | mcp_save_file.py:49-53 | any decoded `fetch_url` request with dict params is answered with its own id and the fetch of its `url` member, and leaves the filesystem as it was |
| SaveFileServer.Run | mcp_save_file.py:44-56 | the loop writes one record per line |
| SaveFileServer.RunAnswersEveryLine | mcp_save_file.py:44-56 | record k is the "2.0" answer to line k: an error with id null exactly when line k is rejected, otherwise a result with that line's id |
| SaveFileServer.RunAt | mcp_save_file.py:44-56 | record k answers line k, on the filesystem that the lines before it left (responses in input order) |
| SaveFileServer.Serve | mcp_save_file.py:44-56 | the `while True` readline loop writes exactly the records and leaves exactly the filesystem of the fold over the lines of stdin |
| SaveFileServer.Start | mcp_save_file.py:35-56 | with an argument, print the header and the record of one `fetch_url` of `argv[1]` with id 1, without touching the disk or reading stdin; otherwise run the stdin loop |
| FetchUrlServer.FetchUrl | mcp_fetch_url.py:32-37 | every response gives its body whatever its status, and a failure gives "Erro: " followed by its message |
| FetchUrlServer.HandleLine | mcp_fetch_url.py:25-45 | "2.0" record; an error with id null exactly when the line is undecodable, not a dict, or `fetch_url` with non-dict params; otherwise the id is echoed, and the result is the fetch for `fetch_url` and "Método {method} não suportado." for any other or absent method |
| FetchUrlServer.AnswersSplit | mcp_fetch_url.py:20-45 | the server keeps no state: a stream cut at a line end is answered as its two parts one after the other |
| FetchUrlServer.Serve | mcp_fetch_url.py:20-45 | the readline loop writes one record per line of stdin, in order, each the answer to its line |
| FetchUrlServer.Start | mcp_fetch_url.py:4-45 | `fetch_url <URL>` prints the page or the error; any other argument list prints the usage line; in neither case is stdin read; with no argument, the stdin loop runs |
| LocalServer.Start | mcp_local.py:3-29 | the server writes one record per line of stdin, in order, answering each as the `fetch_url` server's stdin loop does |
| Variants.ErrorStatusDiffers | mcp_save_file.py:12-16 | on a 404 the `save_file` server reports "Erro ao acessar URL {url}: 404 Client Error: Not Found for url: {url}" while the `fetch_url` server passes the error page on as its result |
| Variants.SuccessAgrees | mcp_fetch_url.py:31-37 | on a status below 400 both servers answer a `fetch_url` request with the same record, the page body |
| Variants.SaveFileUnknownToFetchServer | mcp_fetch_url.py:38-39 | the `fetch_url` server answers `save_file` as an unknown method, whatever its params |
| Chunking.ChunksConcat | java_code_generator.py:8-13 | the chunks, joined in order, are the text |
| Chunking.ChunksShape | java_code_generator.py:11-12 | every chunk is non-empty and at most `size` long, and all but the last are exactly `size` long |
| Chunking.ChunkCount | java_code_generator.py:11 | there are ⌈len(text)/size⌉ chunks, so the empty text has none |
| Chunking.ChunkAt | java_code_generator.py:11-12 | chunk k is `text[k*size : min((k+1)*size, len(text))]` |
| Chunking.ChunkLoop | java_code_generator.py:10-13 | the `range(0, len(text), size)` loop builds exactly the chunks |
| Chunking.ChunkText | java_code_generator.py:8-13 | a zero size raises `ValueError`, a negative size gives `[]`, and a positive size gives the chunks |
| JavaCodeGenerator.DefaultChunking | java_code_generator.py:6-13 | with the default size of 4000: ⌈len/4000⌉ chunks, none exactly for the empty text, joining back to the text, all but the last 4000 long |
| AgentJavaParseCode.DefaultChunking | agent_java_parse_code.py:9-31 | with the default size of 4000 the chunks join back to the text, each of 1 to 4000 characters, all but the last exactly 4000 |
| AgentJavaParseCode.FileTasks | agent_java_parse_code.py:61-70 | four tasks with the four project paths, in order, each prompt ending with the summarised code |
| AgentJavaParseCode.TaskPathsHaveDirectory | agent_java_parse_code.py:61-70 | every task path has a directory part, so `save_file` does not fail on an empty one |
| AgentJavaParseCode.BuildSaveRequests | agent_java_parse_code.py:72-79 | one request per task, in task order: method `save_file`, params holding the task's path and the agent's answer to its prompt, id "1" |
| AgentJavaParseCode.SaveTaskFields | agent_java_parse_code.py:74-78 | the `save_file` server reads back the method, the id "1", the path and the content of such a request |
| AgentJavaParseCode.SaveTaskIsSaved | agent_java_parse_code.py:74-79 | a `save_file` server given such a request echoes id "1" and, when the save can succeed, leaves the code in the file at the task's path (the intended target: as written, the request goes to the fetch tool) |
| JavaParserCode.AnyIndicatorExists | java_parser_code.py:69 | `any(...)` holds exactly when some indicator, lower-cased, occurs in the lower-cased text |
| JavaParserCode.IsLikelyJavaCodeIff | java_parser_code.py:53-72 | true exactly when an indicator occurs ignoring ASCII case, or when the text has both braces and more than 50 characters; so false with no indicator and a missing brace or at most 50 characters |
| JavaParserCode.IndicatorIgnoresCase | java_parser_code.py:66-69 | texts equal after lower-casing agree on the indicator test |
| JavaParserCode.UpperCaseIndicator | java_parser_code.py:66-69 | "PUBLIC CLASS x" qualifies |
| JavaParserCode.KeptMembers | java_parser_code.py:45-49 | a text is kept exactly when it is the stripped text of some element, non-empty and looks like Java |
| JavaParserCode.KeptDistinct | java_parser_code.py:48 | no text is kept twice |
| JavaParserCode.KeptWellFormed | java_parser_code.py:46-48 | every kept text is non-empty, already stripped and looks like Java |
| JavaParserCode.KeptInFirstOccurrenceOrder | java_parser_code.py:41-49 | the kept texts follow the order of their first occurrence among the stripped candidates, selectors taken in list order |
| JavaParserCode.OfferAll | java_parser_code.py:45-49 | the inner loop offers one selector's matches, in order, to the list |
| JavaParserCode.FetchJavaCode | java_parser_code.py:8-51 | a request failure or an error status gives `[]`; otherwise the result is the filtered, de-duplicated list over all selectors in order |
| GitHubUrl.ParseRepoUrlSegments | simple_github_downloader.py:20-22 | parsing succeeds iff the URL, trailing `/` stripped, has a `/`; owner and repo are then its last two `/`-free segments (it ends with "owner/repo") and repo is its basename; otherwise `parts[-2]` raises `IndexError` |
| GitHubUrl.ParseRepoUrlOwner | simple_github_downloader.py:20-22 | when parsing succeeds, owner is `parts[-2]`: the basename of what precedes the stripped URL's last `/` |
| GitHubUrl.SplitLastTwo | simple_github_downloader.py:20-22 | when the separator occurs there are at least two parts, and the text ends with the last two joined by it |
| SimpleGitHubDownloader.DownloadGitHubRepo | simple_github_downloader.py:8-66 | the branch loop gives exactly the outcome of trying `main`, then `master`, on the ZIP URL of each |
| SimpleGitHubDownloader.MainFirst | simple_github_downloader.py:27-57 | when `main` downloads and its folder exists, the result is `{download_path}/{repo}-main` |
| SimpleGitHubDownloader.FallBackToMaster | simple_github_downloader.py:59-66 | after a 404 or a missing folder on `main`, `master` decides; exhausting both raises the "nenhuma branch testada: ['main', 'master']" exception |
| SimpleGitHubDownloader.OtherStatusEscapes | simple_github_downloader.py:59-64 | any other error status on `main` propagates its `HTTPError` |
| SimpleGitHubDownloader.DownloadedFolder | simple_github_downloader.py:53-57 | a successful result is `{repo}-{branch}` for a tried branch whose download did not raise and whose folder exists |
| SimpleGitHubDownloader.ReadAtMost | simple_github_downloader.py:75 | `f.read(n)` returns a prefix of min(n, length) characters |
| SimpleGitHubDownloader.ReadFileSafelyLoop | simple_github_downloader.py:68-82 | the encoding loop gives the first decodable read, marked as written, lets other errors escape, and reports an unreadable file by name |
| SimpleGitHubDownloader.FirstReadOrder | simple_github_downloader.py:70-80 | utf-8 is tried first, then latin-1, then cp1252 |
| SimpleGitHubDownloader.MarkAsWrittenShape | simple_github_downloader.py:75-78 | the result is at most `max_chars` characters plus the marker: the first `max_chars` characters followed by the marker exactly when the text has at least `max_chars`, and the text itself when it is shorter |
| SimpleGitHubDownloader.ExactLengthMarkedTruncated | simple_github_downloader.py:75-77 | a file of exactly 2000 characters is read whole and yet marked "(arquivo truncado)" |
| SimpleGitHubDownloader.MarkIntended | simple_github_downloader.py:75-77 | corrected rule: the marker is added exactly when characters were left unread |
| SimpleGitHubDownloader.ExactLengthShownWhole | simple_github_downloader.py:75-77 | with the corrected rule a file of exactly 2000 characters is shown as it is |
| SimpleGitHubDownloader.RulesAgreeOtherwise | simple_github_downloader.py:75-77 | both rules agree on every text except one of exactly `max_chars` characters |
| SimpleGitHubDownloader.CollectKeyFiles | simple_github_downloader.py:113-119 | the nested walk loop collects exactly the found key files, in walk order |
| SimpleGitHubDownloader.KeyFilesInMembers | simple_github_downloader.py:115-119 | a file is found exactly when its name is one of the key files |
| SimpleGitHubDownloader.FoundFilesAreKeyFiles | simple_github_downloader.py:113-119 | every found name is one of the eleven key files |
| SimpleGitHubDownloader.SourceFilesMembers | simple_github_downloader.py:155-156 | a name is kept exactly when it is among the files and ends with one of the eight extensions |
| SimpleGitHubDownloader.EntryLinesShape | simple_github_downloader.py:144-161 | an entry deeper than level 3 prints nothing; any other entry prints the listing of its folder name and its source files at its level |
| SimpleGitHubDownloader.ListingShape | simple_github_downloader.py:148-161 | a listing is the folder line (when the name is non-empty), the first min(5, n) source files indented two spaces per level plus one, then "... e mais {n-5} arquivos" when n > 5 |
| SimpleGitHubDownloader.MissingSourceDirSilent | simple_github_downloader.py:140-143 | a source directory that does not exist prints nothing |
| SimpleGitHubDownloader.ListSourceStructure | simple_github_downloader.py:139-161 | the loops print exactly the heading and entry lines of each existing source directory, in the order src, lib, app, backend, frontend |
| SimpleGitHubDownloader.LabelsShape | simple_github_downloader.py:167-185 | labels appear in the order Java, Spring Boot, Python, Node.js, Docker, each exactly when its check holds, and Spring Boot only together with Java |
| SimpleGitHubDownloader.LabelsOrdered | simple_github_downloader.py:167-185 | the labels are strictly ordered by check order and each is one of the five |
| SimpleGitHubDownloader.LabelsMembers | simple_github_downloader.py:167-185 | each label is present exactly when its check holds, Spring Boot only with Java |
| SimpleGitHubDownloader.TechnologiesOrdered | simple_github_downloader.py:167-185 | the detected labels are ordered; Java iff pom.xml or build.gradle; Spring Boot iff Java and `src/main/java` exists; Node.js iff package.json; Docker iff Dockerfile or docker-compose.yml |
| SimpleGitHubDownloader.SetupPyNeverDetected | simple_github_downloader.py:176 | the `setup.py` test never holds, so Python is detected by requirements.txt alone |
| SimpleGitHubDownloader.SetupPyProjectMissed | simple_github_downloader.py:176 | a project whose only Python marker is `setup.py` gets no Python label |
| SimpleGitHubDownloader.SetupPyDetectedWhenIntended | simple_github_downloader.py:176 | with the corrected test, Python is detected iff requirements.txt is found or `setup.py` is anywhere in the walk, and nothing else changes |
| Walk.LevelOfTop | github_project_downloader.py:57 | the walked top directory is at level 0 |
| Walk.Indent | github_project_downloader.py:60 | two spaces per level |
| Walk.Take | github_project_downloader.py:45 | `s[:n]`, of a text or of a list of names, is its prefix of min(n, len) items |
| Walk.TakeTake | github_project_downloader.py:45-47 | taking 200 of the first 1000 characters is taking the first 200 |
| Walk.AppendWalkLines | github_project_downloader.py:56-67 | the loop over a walk appends each entry's lines, in walk order |
| GitHubProjectDownloader.DownloadFolderFallback | github_project_downloader.py:83-118 | a download succeeds iff the `main` request gives a status that does not raise; it then returns `{repo}-main` if that folder exists, otherwise `{repo}`; a request failure or an error status escapes |
| GitHubProjectDownloader.DownloadAsksMainOnly | github_project_downloader.py:87-97 | only the `main` ZIP URL is ever requested: two HTTP layers that agree on it give the same result |
| GitHubProjectDownloader.DownloadBadUrl | github_project_downloader.py:83-85 | a URL with no `/` after stripping fails on `parts[-2]` before any request |
| GitHubProjectDownloader.DownloadNamesLastSegment | github_project_downloader.py:83-118 | the returned folder is named after the URL's last segment, with or without "-main" |
| GitHubProjectDownloader.FileReportShape | github_project_downloader.py:43-49 | a readable key file shows its path and a preview of at most its first 200 characters; an unreadable one gives one line naming the error, and nothing is raised |
| GitHubProjectDownloader.EntryFoundMembers | github_project_downloader.py:35-40 | a path is found exactly when it is the relative path of a file of the entry whose name is exactly one of the six key files |
| GitHubProjectDownloader.TopEntryFoundNames | github_project_downloader.py:37-40 | at the top of the walk the found paths are exactly the key file names present |
| GitHubProjectDownloader.ScanEntry | github_project_downloader.py:36-49 | the inner loop appends the entry's found paths and its report lines, in file order |
| GitHubProjectDownloader.ScanKeyFiles | github_project_downloader.py:35-49 | the walk loop collects exactly the found paths and the report lines, in walk order |
| GitHubProjectDownloader.ListedLines | github_project_downloader.py:64-65 | one line per listed file, indented one level below its folder |
| GitHubProjectDownloader.TreeLinesShape | github_project_downloader.py:56-67 | an entry deeper than level 2 is omitted; level 2 gives only the folder line; levels 0 and 1 give the folder line, the first min(5, n) files and "... and {n-5} more files" when n > 5 |
| GitHubProjectDownloader.AnalyzeProjectStructure | github_project_downloader.py:17-69 | the text is the lines joined with "\n": name and location, the reports, the summary, the outline heading and the outline |
| GitHubProjectDownloader.SummaryPlacement | github_project_downloader.py:51-55 | right after the reports comes the summary line, which joins the found paths with ", " in walk order, exactly when a key file was found; otherwise the outline heading comes there |
| GitHubProjectDownloader.AnalysisStartsWithProject | github_project_downloader.py:27-69 | the text starts with the project-name line and the location line, each followed by the separator |

## Left out

- Networking. `requests.get` is the `net` parameter, and a timeout is a field of the request
  given to it. Request headers (the browser `User-Agent` of `java_parser_code.py`) and the
  response's byte content are not modelled.
- JSON. `json.loads` is the `loads` parameter and `json.dumps` is not modelled: a record is a
  datatype, not bytes. The wording of a decode error is the decoder's own message. A decoded
  object keeps every member it was written with; `Json.Get` takes the last one with the key,
  as `json.loads` keeps the last value of a repeated key.
- Exception texts that come from outside the program (OS errors, HTTP failures) are abstract
  messages. Only the texts that the scripts and `raise_for_status` build are spelled out.
- SaveFileServer.FetchUrl: on failure it states only the prefix, since the exception text after
  it comes from the HTTP layer.
- SaveFileServer.SaveFileReportsFailure: states only the prefix, for the same reason.
- FileSystem.MakeDirs / SaveFileServer.SaveFileFrame: paths are raw strings and are not
  normalised, so `a/./b.txt`, `a//b.txt` or a path through a symbolic link is a different file
  from `a/b.txt`; `SaveFileFrame` and `SecondSaveWins` hold only for paths in one canonical
  spelling, whereas in Python a save to `a/./b.txt` overwrites `a/b.txt`. `MakeDirs` also
  fails only for an empty path or a file in the way: a `PermissionError` or any other OS error
  from `os.makedirs` on a directory the process cannot write to is not modelled (writes are
  refused only through the set of protected files, at `open`).
- The real filesystem:
  - zip extraction, the temporary file and its removal, and `os.makedirs(download_path)` in both
    downloaders are not modelled;
  - what exists after extraction is the `present`/`onDisk` parameter;
  - `os.walk` is a given walk, the same for both walks of `analyze_project_structure`;
  - `os.path.relpath` is modelled only for roots that the walk gives, by cutting the prefix
    (and the `/` after it, or the `/` the top already ends with), without normalising `.`,
    `..` or duplicate slashes.
- Character encodings. A file read is an oracle giving text, a decode error or another error.
  Newline translation is not modelled. In Python a latin-1 decode never fails, because every
  byte is a character; so the cp1252 attempt and the "could not read" text of
  `read_file_safely` (`simple_github_downloader.py:79-82`) are dead code there. The model keeps
  them, and reaches them only when `readAs` gives a decode error for latin-1.
- Case mapping is ASCII only. Non-ASCII mappings such as the Kelvin sign are not modelled.
- Printing. The model covers the listing, detection and summary lines that the rules produce. It
  does not cover:
  - banners, headers, separators and emoji icons per key file (`simple_github_downloader.py:88-93`,
    `110-133`, `164-165`);
  - printing each key file's content;
  - the execution suggestions (`simple_github_downloader.py:190-217`);
  - the debug lines of `fetch_java_code`.
- Output buffering and `flush=True` are not modelled. Output is a sequence of lines.
- BeautifulSoup. The `select` parameter gives the texts of the elements that a selector matches.
  `get_text()` is the identity on those texts.
- The agent runtime. `agent.run` is the `generate` parameter, and `tools[0].send` is the request
  value it is given. The asyncio and autogen orchestration of every `main` is not modelled.
- AgentJavaParseCode.SaveTaskIsSaved: as the script is written, `tools[0]` is a tool of the
  `mcp-server-fetch` server (`agent_java_parse_code.py:35-36`), so the `save_file` request of
  line 79 goes to the fetch tool and no file is saved. That server is not part of this model;
  the lemma describes what a `save_file` server, the evidently intended target, does with it.
- The `fetch_java_code` of `agent_java_parse_code.py:11-24` is not modelled. Its single-selector
  loop, followed by summarising, is glue around the agent.
- `github_downloader.py`, `agent_v2.py` and `main.py` are not part of this model. They script
  the agent runtime and have no rules of their own.
- Concurrency: none of the scripts has any. Each server handles one line at a time.

## Findings

| source | as written | input that shows it | evidently intended | confidence | as-written member | corrected member |
|---|---|---|---|---|---|---|
| simple_github_downloader.py:75-77 | the marker "(arquivo truncado)" is appended whenever exactly `max_chars` characters were read | a file of exactly 2000 characters: it is read whole, yet marked as truncated | mark only when characters were left unread, i.e. the file is longer than `max_chars` | not executed | SimpleGitHubDownloader.ExactLengthMarkedTruncated | SimpleGitHubDownloader.ExactLengthShownWhole |
| simple_github_downloader.py:176 | Python is detected if `'setup.py' in f[1]` for a found file, but found files are only the eleven key-file names, none of which contains `setup.py` | a project holding only `setup.py`: no Python label | detect `setup.py` among the walked files | not executed | SimpleGitHubDownloader.SetupPyProjectMissed | SimpleGitHubDownloader.SetupPyDetectedWhenIntended |
