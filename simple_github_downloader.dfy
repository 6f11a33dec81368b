/** The stand-alone downloader: fetch a repository's ZIP archive trying the `main` branch and
    then `master`, read files with an encoding fallback, and list what a downloaded project
    holds. The HTTP layer, what extraction leaves on disk, the decoders and the tree walks are
    given as functions. */
module SimpleGitHubDownloader {
  import opened Text
  import opened Paths
  import opened Exceptions
  import opened Rpc
  import opened GitHubUrl
  import opened Walk

  // ---------------------------------------------------------------------------------------
  // Downloading with branch fallback

  const Branches: seq<string> := ["main", "master"]

  /** The message raised once every branch was tried: the list as Python prints it. */
  const ExhaustedText := "Não foi possível baixar o repositório de nenhuma branch testada: ['main', 'master']"

  /** What one branch gives: the extracted folder, a reason to try the next branch, or an
      exception that ends the download. */
  datatype Attempt = Found(folder: string) | Skip | Fail(exc: Exc)

  /** The folder the archive of `branch` extracts to. */
  function Folder(downloadPath: string, repo: string, branch: string): string {
    Join(downloadPath, repo + "-" + branch)
  }

  /** One turn of the branch loop. `present(branch, folder)` says whether `folder` exists once
      the archive of `branch` has been extracted. A 404 skips the branch, so does an archive
      without the expected folder; any other error status or a request failure escapes. */
  function TryBranch(net: HttpGet -> HttpOutcome, present: (string, string) -> bool,
                     owner: string, repo: string, downloadPath: string, branch: string): Attempt
  {
    match net(HttpGet(ZipUrl(owner, repo, branch), NoTimeout))
    case Failed(m) => Fail(RequestException(m))
    case Response(status, reason, finalUrl, _) =>
      if RaisesForStatus(status) then
        if status == 404 then Skip else Fail(StatusError(status, reason, finalUrl))
      else if present(branch, Folder(downloadPath, repo, branch)) then Found(Folder(downloadPath, repo, branch))
      else Skip
  }

  /** The branches tried in order: the first folder found, the first escaping exception, or
      the exhausted-branches exception. */
  function TryBranches(net: HttpGet -> HttpOutcome, present: (string, string) -> bool,
                       owner: string, repo: string, downloadPath: string, branches: seq<string>): Outcome<string>
    decreases |branches|
  {
    if branches == [] then Raised(Exception(ExhaustedText))
    else match TryBranch(net, present, owner, repo, downloadPath, branches[0])
      case Found(folder) => Ok(folder)
      case Fail(e) => Raised(e)
      case Skip => TryBranches(net, present, owner, repo, downloadPath, branches[1..])
  }

  /** `download_github_repo`: parse the URL, then try `main` and `master`. */
  function Download(url: string, downloadPath: string, net: HttpGet -> HttpOutcome, present: (string, string) -> bool): Outcome<string> {
    match ParseRepoUrl(url)
    case Raised(e) => Raised(e)
    case Ok((owner, repo)) => TryBranches(net, present, owner, repo, downloadPath, Branches)
  }

  /** The loop of `download_github_repo` over the branches. */
  method DownloadGitHubRepo(url: string, downloadPath: string, net: HttpGet -> HttpOutcome, present: (string, string) -> bool)
    returns (r: Outcome<string>)
    ensures r == Download(url, downloadPath, net, present)
  {
    var parsed := ParseRepoUrl(url);
    if parsed.Raised? {
      return Raised(parsed.exc);
    }
    var (owner, repo) := parsed.value;
    for i := 0 to |Branches|
      invariant TryBranches(net, present, owner, repo, downloadPath, Branches[i..])
             == TryBranches(net, present, owner, repo, downloadPath, Branches)
    {
      var branch := Branches[i];
      assert Branches[i..][0] == branch && Branches[i..][1..] == Branches[i + 1..];
      var zipUrl := ZipUrl(owner, repo, branch);
      var response := net(HttpGet(zipUrl, NoTimeout));
      if response.Failed? {
        return Raised(RequestException(response.message));
      }
      if RaisesForStatus(response.status) {
        if response.status == 404 {
          continue;
        }
        return Raised(StatusError(response.status, response.reason, response.finalUrl));
      }
      var extracted := Join(downloadPath, repo + "-" + branch);
      if present(branch, extracted) {
        return Ok(extracted);
      }
    }
    assert Branches[|Branches|..] == [];
    return Raised(Exception(ExhaustedText));
  }

  /** When `main` yields its folder, `master` is never consulted. */
  lemma MainFirst(url: string, downloadPath: string, net: HttpGet -> HttpOutcome, present: (string, string) -> bool, owner: string, repo: string)
    requires ParseRepoUrl(url) == Ok((owner, repo))
    requires TryBranch(net, present, owner, repo, downloadPath, "main").Found?
    ensures Download(url, downloadPath, net, present) == Ok(Folder(downloadPath, repo, "main"))
  {
  }

  /** A skipped `main` (404, or no folder after extraction) leaves the answer to `master`. */
  lemma FallBackToMaster(url: string, downloadPath: string, net: HttpGet -> HttpOutcome, present: (string, string) -> bool, owner: string, repo: string)
    requires ParseRepoUrl(url) == Ok((owner, repo))
    requires TryBranch(net, present, owner, repo, downloadPath, "main").Skip?
    ensures Download(url, downloadPath, net, present)
         == match TryBranch(net, present, owner, repo, downloadPath, "master")
            case Found(folder) => Ok(folder)
            case Fail(e) => Raised(e)
            case Skip => Raised(Exception(ExhaustedText))
  {
    assert Branches[1..] == ["master"] && Branches[1..][1..] == [];
  }

  /** Any other error status on `main` ends the download with its `HTTPError`. */
  lemma OtherStatusEscapes(url: string, downloadPath: string, net: HttpGet -> HttpOutcome, present: (string, string) -> bool, owner: string, repo: string)
    requires ParseRepoUrl(url) == Ok((owner, repo))
    requires var r := net(HttpGet(ZipUrl(owner, repo, "main"), NoTimeout));
      r.Response? && RaisesForStatus(r.status) && r.status != 404
    ensures var r := net(HttpGet(ZipUrl(owner, repo, "main"), NoTimeout));
      Download(url, downloadPath, net, present) == Raised(StatusError(r.status, r.reason, r.finalUrl))
  {
  }

  /** A successful download is the extracted folder of one of the two branches, present on
      disk after its archive was extracted, with a status that did not raise. */
  lemma {:induction false} DownloadedFolder(net: HttpGet -> HttpOutcome, present: (string, string) -> bool,
                                            owner: string, repo: string, downloadPath: string, branches: seq<string>)
    requires TryBranches(net, present, owner, repo, downloadPath, branches).Ok?
    ensures exists k :: (0 <= k < |branches|
      && TryBranches(net, present, owner, repo, downloadPath, branches).value == Folder(downloadPath, repo, branches[k])
      && present(branches[k], Folder(downloadPath, repo, branches[k]))
      && net(HttpGet(ZipUrl(owner, repo, branches[k]), NoTimeout)).Response?
      && !RaisesForStatus(net(HttpGet(ZipUrl(owner, repo, branches[k]), NoTimeout)).status))
    decreases |branches|
  {
    if TryBranch(net, present, owner, repo, downloadPath, branches[0]).Skip? {
      DownloadedFolder(net, present, owner, repo, downloadPath, branches[1..]);
      var k :| 0 <= k < |branches[1..]|
        && TryBranches(net, present, owner, repo, downloadPath, branches[1..]).value == Folder(downloadPath, repo, branches[1..][k])
        && present(branches[1..][k], Folder(downloadPath, repo, branches[1..][k]))
        && net(HttpGet(ZipUrl(owner, repo, branches[1..][k]), NoTimeout)).Response?
        && !RaisesForStatus(net(HttpGet(ZipUrl(owner, repo, branches[1..][k]), NoTimeout)).status);
      assert branches[1..][k] == branches[k + 1];
    } else {
      assert branches[0] == branches[0];
    }
  }

  // ---------------------------------------------------------------------------------------
  // Reading a file with an encoding fallback

  const Encodings: seq<string> := ["utf-8", "latin-1", "cp1252"]
  const DefaultMaxChars: int := 2000
  const TruncatedMarker := "\n... (arquivo truncado)"

  /** Opening and reading the file with one encoding: its text, a decode error, or another
      exception (the file is missing, say), which is not caught. In Python a latin-1 read never
      fails to decode, so the cp1252 attempt and the "could not read" text are reached only
      when `readAs` gives a decode error for latin-1; the model keeps them as written. */
  datatype FileRead = Decoded(text: string) | DecodeError | OpenError(exc: Exc)

  /** `f.read(n)`: at most `n` characters, or everything for a negative `n`. */
  function ReadAtMost(text: string, n: int): (r: string)
    ensures n >= 0 ==> |r| == Min(n, |text|)
    ensures r <= text
  {
    if n < 0 then text else text[..Min(n, |text|)]
  }

  /** The first encoding whose read does not fail to decode, in order. */
  function FirstRead(readAs: string -> FileRead, encodings: seq<string>): FileRead
    decreases |encodings|
  {
    if encodings == [] then DecodeError
    else if readAs(encodings[0]).DecodeError? then FirstRead(readAs, encodings[1..])
    else readAs(encodings[0])
  }

  /** The truncation rule as written: mark whenever exactly `maxChars` characters were read. */
  function MarkAsWritten(content: string, maxChars: int): string {
    if |content| == maxChars then content + TruncatedMarker else content
  }

  function ReadFailedText(path: string): string {
    "❌ Não foi possível ler o arquivo " + path
  }

  /** `read_file_safely(path, max_chars)`, as written. */
  function ReadFileSafely(readAs: string -> FileRead, path: string, maxChars: int): Outcome<string> {
    match FirstRead(readAs, Encodings)
    case Decoded(text) => Ok(MarkAsWritten(ReadAtMost(text, maxChars), maxChars))
    case OpenError(e) => Raised(e)
    case DecodeError => Ok(ReadFailedText(path))
  }

  /** The encoding loop of `read_file_safely`. */
  method ReadFileSafelyLoop(readAs: string -> FileRead, path: string, maxChars: int) returns (r: Outcome<string>)
    ensures r == ReadFileSafely(readAs, path, maxChars)
  {
    for i := 0 to |Encodings|
      invariant FirstRead(readAs, Encodings[i..]) == FirstRead(readAs, Encodings)
    {
      assert Encodings[i..][0] == Encodings[i] && Encodings[i..][1..] == Encodings[i + 1..];
      var read := readAs(Encodings[i]);
      if read.DecodeError? {
        continue;
      }
      if read.OpenError? {
        return Raised(read.exc);
      }
      var content := ReadAtMost(read.text, maxChars);
      if |content| == maxChars {
        content := content + TruncatedMarker;
      }
      return Ok(content);
    }
    assert Encodings[|Encodings|..] == [];
    return Ok(ReadFailedText(path));
  }

  /** What the rule as written gives: the first `maxChars` characters, followed by the marker
      exactly when the text has at least `maxChars` characters. */
  lemma MarkAsWrittenShape(text: string, maxChars: nat)
    ensures var r := MarkAsWritten(ReadAtMost(text, maxChars), maxChars);
      (r == Take(text, maxChars) + TruncatedMarker <==> |text| >= maxChars)
      && (|text| < maxChars ==> r == text)
      && |r| <= maxChars + |TruncatedMarker|
  {
    var c := ReadAtMost(text, maxChars);
    assert |TruncatedMarker| > 0;
    if |text| < maxChars {
      assert c == text;
      assert |c + TruncatedMarker| != |c|;
    }
  }

  /** A file of exactly `maxChars` characters is read whole, and yet marked as cut off. */
  lemma ExactLengthMarkedTruncated(text: string)
    requires |text| == DefaultMaxChars
    ensures MarkAsWritten(ReadAtMost(text, DefaultMaxChars), DefaultMaxChars) == text + TruncatedMarker
  {
  }

  /** The rule the marker's wording states: mark exactly when characters were left unread. */
  function MarkIntended(text: string, maxChars: int): (r: string)
    ensures maxChars >= 0 ==>
      (r == ReadAtMost(text, maxChars) + TruncatedMarker <==> |text| > maxChars)
    ensures maxChars >= 0 && |text| <= maxChars ==> r == text
  {
    var content := ReadAtMost(text, maxChars);
    assert |TruncatedMarker| > 0;
    assert |content + TruncatedMarker| != |content|;
    if |content| < |text| then content + TruncatedMarker else content
  }

  /** `read_file_safely` with the intended rule. */
  function ReadFileSafelyIntended(readAs: string -> FileRead, path: string, maxChars: int): Outcome<string> {
    match FirstRead(readAs, Encodings)
    case Decoded(text) => Ok(MarkIntended(text, maxChars))
    case OpenError(e) => Raised(e)
    case DecodeError => Ok(ReadFailedText(path))
  }

  /** With the intended rule a file of exactly `maxChars` characters is shown as it is. */
  lemma ExactLengthShownWhole(readAs: string -> FileRead, path: string)
    requires FirstRead(readAs, Encodings).Decoded? && |FirstRead(readAs, Encodings).text| == DefaultMaxChars
    ensures ReadFileSafelyIntended(readAs, path, DefaultMaxChars) == Ok(FirstRead(readAs, Encodings).text)
  {
  }

  /** Both rules agree except on a text of exactly `maxChars` characters. */
  lemma RulesAgreeOtherwise(text: string, maxChars: nat)
    requires |text| != maxChars
    ensures MarkIntended(text, maxChars) == MarkAsWritten(ReadAtMost(text, maxChars), maxChars)
  {
  }

  /** The first decodable encoding wins; utf-8 is tried first. */
  lemma FirstReadOrder(readAs: string -> FileRead)
    ensures !readAs("utf-8").DecodeError? ==> FirstRead(readAs, Encodings) == readAs("utf-8")
    ensures readAs("utf-8").DecodeError? && !readAs("latin-1").DecodeError? ==>
      FirstRead(readAs, Encodings) == readAs("latin-1")
    ensures readAs("utf-8").DecodeError? && readAs("latin-1").DecodeError? ==>
      FirstRead(readAs, Encodings) == (if readAs("cp1252").DecodeError? then DecodeError else readAs("cp1252"))
  {
    assert Encodings[1..] == ["latin-1", "cp1252"];
    assert Encodings[1..][1..] == ["cp1252"];
    assert Encodings[1..][1..][1..] == [];
  }

  // ---------------------------------------------------------------------------------------
  // Key files

  /** The names looked for, as exact file names. */
  const KeyFiles: seq<string> := [
    "README.md", "README.rst", "pom.xml", "build.gradle", "package.json", "requirements.txt",
    "Dockerfile", "docker-compose.yml", ".env.example", "application.properties", "application.yml"]

  /** A found key file: its path relative to the project, its name and its full path. */
  datatype FoundFile = FoundFile(relative: string, name: string, full: string)

  /** The key files among `files` of one walk entry, in order. */
  function KeyFilesIn(top: string, root: string, files: seq<string>): seq<FoundFile>
    decreases |files|
  {
    if files == [] then []
    else
      var init := KeyFilesIn(top, root, files[..|files| - 1]);
      var f := files[|files| - 1];
      if f in KeyFiles then init + [FoundFile(RelPath(top, root, f), f, Join(root, f))] else init
  }

  /** The key files of the whole walk, in walk order. */
  function FoundFiles(top: string, walk: seq<WalkEntry>): seq<FoundFile>
    decreases |walk|
  {
    if walk == [] then []
    else FoundFiles(top, walk[..|walk| - 1]) + KeyFilesIn(top, walk[|walk| - 1].root, walk[|walk| - 1].files)
  }

  /** The loop that collects `found_files`. */
  method CollectKeyFiles(top: string, walk: seq<WalkEntry>) returns (found: seq<FoundFile>)
    ensures found == FoundFiles(top, walk)
  {
    found := [];
    for i := 0 to |walk|
      invariant found == FoundFiles(top, walk[..i])
    {
      var entry := walk[i];
      ghost var before := found;
      for j := 0 to |entry.files|
        invariant found == before + KeyFilesIn(top, entry.root, entry.files[..j])
      {
        var f := entry.files[j];
        if f in KeyFiles {
          found := found + [FoundFile(RelPath(top, entry.root, f), f, Join(entry.root, f))];
        }
        assert entry.files[..j + 1][..j] == entry.files[..j];
      }
      assert entry.files[..|entry.files|] == entry.files;
      assert walk[..i + 1][..i] == walk[..i];
    }
    assert walk[..|walk|] == walk;
  }

  /** A file is found exactly when it is named like a key file. */
  lemma {:induction false} KeyFilesInMembers(top: string, root: string, files: seq<string>)
    ensures forall k :: 0 <= k < |KeyFilesIn(top, root, files)| ==> KeyFilesIn(top, root, files)[k].name in KeyFiles
    ensures forall f :: f in files && f in KeyFiles <==> f in Names(KeyFilesIn(top, root, files))
    decreases |files|
  {
    if files != [] {
      var init, x := files[..|files| - 1], files[|files| - 1];
      KeyFilesInMembers(top, root, init);
      assert files == init + [x];
      var before := KeyFilesIn(top, root, init);
      if x in KeyFiles {
        var item := FoundFile(RelPath(top, root, x), x, Join(root, x));
        assert KeyFilesIn(top, root, files) == before + [item];
        assert Names(before + [item]) == Names(before) + [x];
      } else {
        assert KeyFilesIn(top, root, files) == before;
      }
    }
  }

  /** The names of found key files, in order. */
  function Names(found: seq<FoundFile>): (r: seq<string>)
    ensures |r| == |found|
    ensures forall k :: 0 <= k < |found| ==> r[k] == found[k].name
  {
    seq(|found|, k requires 0 <= k < |found| => found[k].name)
  }

  // ---------------------------------------------------------------------------------------
  // Source structure listing

  const SourceDirs: seq<string> := ["src", "lib", "app", "backend", "frontend"]
  const Extensions: seq<string> := [".java", ".py", ".js", ".ts", ".kt", ".scala", ".go", ".rs"]
  const MaxListed: nat := 5
  const MaxSourceLevel: nat := 3

  predicate HasSourceExtension(f: string) {
    exists e :: e in Extensions && EndsWith(f, e)
  }

  /** `[f for f in files if any(f.endswith(ext) for ext in relevant_extensions)]`. */
  function SourceFiles(files: seq<string>): (r: seq<string>)
    ensures |r| <= |files|
    decreases |files|
  {
    if files == [] then []
    else (if HasSourceExtension(files[0]) then [files[0]] else []) + SourceFiles(files[1..])
  }

  /** A name is kept exactly when it is among the files and has a source extension. */
  lemma {:induction false} SourceFilesMembers(files: seq<string>)
    ensures forall f :: f in SourceFiles(files) <==> f in files && HasSourceExtension(f)
    decreases |files|
  {
    if files != [] {
      SourceFilesMembers(files[1..]);
      assert files == [files[0]] + files[1..];
    }
  }

  /** The printed lines for one walk entry below a source directory. */
  function EntryLines(sourcePath: string, e: WalkEntry): seq<string> {
    var level := Level(sourcePath, e.root);
    if level > MaxSourceLevel then [] else Listing(level, Basename(e.root), SourceFiles(e.files))
  }

  /** The lines of a folder named `name` at `level` whose source files are `sources`. */
  function Listing(level: nat, name: string, sources: seq<string>): seq<string> {
    var sub := Indent(level + 1);
    (if name != "" then [Indent(level) + "📁 " + name + "/"] else [])
    + FileLines(sub, Take(sources, MaxListed))
    + (if |sources| > MaxListed then [MoreLine(sub, |sources| - MaxListed)] else [])
  }

  /** The line for one listed source file. */
  function FileLine(sub: string, name: string): string {
    sub + "📄 " + name
  }

  /** The line counting the `n` source files not listed. */
  function MoreLine(sub: string, n: nat): string {
    sub + "... e mais " + NatToString(n) + " arquivos"
  }

  /** One `📄` line per listed file, indented by `sub`. */
  function FileLines(sub: string, shown: seq<string>): (r: seq<string>)
    ensures |r| == |shown|
    ensures forall k :: 0 <= k < |shown| ==> r[k] == FileLine(sub, shown[k])
  {
    seq(|shown|, k requires 0 <= k < |shown| => FileLine(sub, shown[k]))
  }

  /** Entries deeper than level 3 print nothing; the others print the listing of their
      folder name and their source files, at their level. */
  lemma EntryLinesShape(sourcePath: string, e: WalkEntry)
    ensures Level(sourcePath, e.root) > 3 ==> EntryLines(sourcePath, e) == []
    ensures Level(sourcePath, e.root) <= 3 ==>
      EntryLines(sourcePath, e) == Listing(Level(sourcePath, e.root), Basename(e.root), SourceFiles(e.files))
  {
  }

  /** One folder line for a non-empty name, none otherwise. */
  function HeadCount(name: string): nat {
    if name != "" then 1 else 0
  }

  /** A listing is the folder line (unless the name is empty), the first five source files
      one level further in, and a count of the others when there are more than five. */
  lemma ListingShape(level: nat, name: string, sources: seq<string>)
    ensures |Listing(level, name, sources)| == HeadCount(name) + Min(5, |sources|) + (if |sources| > 5 then 1 else 0)
    ensures forall k :: 0 <= k < Min(5, |sources|) ==>
      Listing(level, name, sources)[HeadCount(name) + k] == FileLine(Indent(level + 1), sources[k])
    ensures |sources| > 5 ==>
      Listing(level, name, sources)[|Listing(level, name, sources)| - 1] == MoreLine(Indent(level + 1), |sources| - 5)
  {
    var sub := Indent(level + 1);
    var head := if name != "" then [Indent(level) + "📁 " + name + "/"] else [];
    var tail := if |sources| > MaxListed then [MoreLine(sub, |sources| - MaxListed)] else [];
    var lines := Listing(level, name, sources);
    ListedLines(lines, head, sub, sources, tail);
    assert |head| == HeadCount(name);
    forall k | 0 <= k < Min(5, |sources|)
      ensures Listing(level, name, sources)[HeadCount(name) + k] == FileLine(Indent(level + 1), sources[k])
    {
      assert lines[|head| + k] == FileLine(sub, sources[k]);
    }
  }

  /** Where the listed files and the count line sit among an entry's lines. */
  lemma ListedLines(lines: seq<string>, head: seq<string>, sub: string, sources: seq<string>, tail: seq<string>)
    requires lines == head + FileLines(sub, Take(sources, MaxListed)) + tail
    ensures |lines| == |head| + Min(5, |sources|) + |tail|
    ensures forall k :: 0 <= k < Min(5, |sources|) ==> lines[|head| + k] == FileLine(sub, sources[k])
    ensures |tail| == 1 ==> lines[|lines| - 1] == tail[0]
  {
    var shown := Take(sources, MaxListed);
    ThreeParts(head, FileLines(sub, shown), tail);
    assert shown == sources[..|shown|];
    forall k | 0 <= k < |shown| ensures lines[|head| + k] == FileLine(sub, sources[k]) {
      assert shown[k] == sources[..|shown|][k];
    }
  }

  /** The lines printed for the source directories that exist, in the fixed order. `walkOf(p)`
      is what `os.walk(p)` yields. */
  function SourceStructure(projectPath: string, onDisk: string -> bool, walkOf: string -> seq<WalkEntry>, dirs: seq<string>): seq<string>
    decreases |dirs|
  {
    if dirs == [] then []
    else
      var prefix := SourceStructure(projectPath, onDisk, walkOf, dirs[..|dirs| - 1]);
      var d := dirs[|dirs| - 1];
      var sourcePath := Join(projectPath, d);
      if onDisk(sourcePath) then prefix + ["\n📂 " + d + "/"] + EntryBlock(sourcePath, walkOf(sourcePath))
      else prefix
  }

  /** The lines printed for the walk of one source directory. */
  function EntryBlock(sourcePath: string, walk: seq<WalkEntry>): seq<string> {
    WalkLines(e => EntryLines(sourcePath, e), walk)
  }

  /** A source directory that does not exist prints nothing. */
  lemma MissingSourceDirSilent(projectPath: string, onDisk: string -> bool, walkOf: string -> seq<WalkEntry>, dirs: seq<string>, d: string)
    requires !onDisk(Join(projectPath, d))
    ensures SourceStructure(projectPath, onDisk, walkOf, dirs + [d]) == SourceStructure(projectPath, onDisk, walkOf, dirs)
  {
    assert (dirs + [d])[..|dirs|] == dirs;
  }

  /** The loops that print the source structure. */
  method ListSourceStructure(projectPath: string, onDisk: string -> bool, walkOf: string -> seq<WalkEntry>)
    returns (lines: seq<string>)
    ensures lines == SourceStructure(projectPath, onDisk, walkOf, SourceDirs)
  {
    lines := [];
    for i := 0 to |SourceDirs|
      invariant lines == SourceStructure(projectPath, onDisk, walkOf, SourceDirs[..i])
    {
      var d := SourceDirs[i];
      var sourcePath := Join(projectPath, d);
      assert SourceDirs[..i + 1][..i] == SourceDirs[..i];
      if onDisk(sourcePath) {
        lines := lines + ["\n📂 " + d + "/"];
        lines := AppendWalkLines(lines, e => EntryLines(sourcePath, e), walkOf(sourcePath));
      }
    }
    assert SourceDirs[..|SourceDirs|] == SourceDirs;
  }

  // ---------------------------------------------------------------------------------------
  // Technology detection

  const Java := "☕ Java"
  const SpringBoot := "🍃 Spring Boot (provável)"
  const Python := "🐍 Python"
  const NodeJs := "📦 Node.js"
  const Docker := "🐳 Docker"

  /** The five labels in the order they are checked. */
  const TechOrder: seq<string> := [Java, SpringBoot, Python, NodeJs, Docker]

  /** `any(pat in f[1] for f in found)`: a substring test on the names. */
  predicate AnyName(found: seq<FoundFile>, pat: string) {
    exists k :: 0 <= k < |found| && Contains(found[k].name, pat)
  }

  function SpringPath(projectPath: string): string {
    Join(Join(Join(projectPath, "src"), "main"), "java")
  }

  /** The labels for the five outcomes of the checks, in the order they are made; Spring Boot
      is only looked for once Java is found. */
  function Labels(java: bool, spring: bool, python: bool, node: bool, docker: bool): seq<string> {
    JavaLabels(java, spring) + Opt(python, Python) + Opt(node, NodeJs) + Opt(docker, Docker)
  }

  /** The Java label, followed by the Spring Boot one when that check holds too. */
  function JavaLabels(java: bool, spring: bool): seq<string> {
    if java then [Java] + Opt(spring, SpringBoot) else []
  }

  /** The label `t` when its check holds. */
  function Opt(flag: bool, t: string): seq<string> {
    if flag then [t] else []
  }

  /** The checks as written; Python is detected by `requirements.txt` or `setup.py` among the
      found key files. */
  function Technologies(found: seq<FoundFile>, onDisk: string -> bool, projectPath: string): seq<string> {
    Labels(AnyName(found, "pom.xml") || AnyName(found, "build.gradle"), onDisk(SpringPath(projectPath)),
      AnyName(found, "requirements.txt") || AnyName(found, "setup.py"),
      AnyName(found, "package.json"),
      AnyName(found, "Dockerfile") || AnyName(found, "docker-compose.yml"))
  }

  /** Position of a label in the check order. */
  function Rank(t: string): nat {
    if t == Java then 0 else if t == SpringBoot then 1 else if t == Python then 2
    else if t == NodeJs then 3 else 4
  }

  lemma LabelsDistinct()
    ensures Java != SpringBoot && Java != Python && Java != NodeJs && Java != Docker
    ensures SpringBoot != Python && SpringBoot != NodeJs && SpringBoot != Docker
    ensures Python != NodeJs && Python != Docker && NodeJs != Docker
  {
    assert Java[0] != SpringBoot[0] && Java[0] != Python[0] && Java[0] != NodeJs[0] && Java[0] != Docker[0];
    assert SpringBoot[0] != Python[0] && SpringBoot[0] != NodeJs[0] && SpringBoot[0] != Docker[0];
    assert Python[0] != NodeJs[0] && Python[0] != Docker[0] && NodeJs[0] != Docker[0];
  }

  /** The labels appear in the fixed order Java, Spring Boot, Python, Node.js, Docker, each
      exactly when its check holds, and Spring Boot only together with Java. */
  lemma LabelsShape(java: bool, spring: bool, python: bool, node: bool, docker: bool)
    ensures var t := Labels(java, spring, python, node, docker);
      Ordered(t) && RankedBelow(t, |TechOrder|)
      && (Java in t <==> java) && (SpringBoot in t <==> java && spring)
      && (Python in t <==> python) && (NodeJs in t <==> node) && (Docker in t <==> docker)
  {
    LabelsOrdered(java, spring, python, node, docker);
    LabelsMembers(java, spring, python, node, docker);
  }

  lemma LabelsOrdered(java: bool, spring: bool, python: bool, node: bool, docker: bool)
    ensures Ordered(Labels(java, spring, python, node, docker))
    ensures RankedBelow(Labels(java, spring, python, node, docker), |TechOrder|)
  {
    RankValues();
    var a := JavaLabels(java, spring);
    JavaLabelsOrdered(java, spring);
    OrderedConcat(a, Opt(python, Python), 2);
    OrderedConcat(a + Opt(python, Python), Opt(node, NodeJs), 3);
    OrderedConcat(a + Opt(python, Python) + Opt(node, NodeJs), Opt(docker, Docker), 4);
  }

  lemma JavaLabelsOrdered(java: bool, spring: bool)
    ensures Ordered(JavaLabels(java, spring)) && RankedBelow(JavaLabels(java, spring), 2)
  {
    RankValues();
  }

  lemma LabelsMembers(java: bool, spring: bool, python: bool, node: bool, docker: bool)
    ensures var t := Labels(java, spring, python, node, docker);
      (Java in t <==> java) && (SpringBoot in t <==> java && spring)
      && (Python in t <==> python) && (NodeJs in t <==> node) && (Docker in t <==> docker)
  {
    LabelsDistinct();
  }

  /** The detection as written: the labels are ordered, Java follows the build files, Spring
      Boot needs Java and `src/main/java`, and the other labels follow their files. */
  lemma TechnologiesOrdered(found: seq<FoundFile>, onDisk: string -> bool, projectPath: string)
    ensures var t := Technologies(found, onDisk, projectPath);
      Ordered(t) && RankedBelow(t, |TechOrder|)
      && (Java in t <==> AnyName(found, "pom.xml") || AnyName(found, "build.gradle"))
      && (SpringBoot in t <==> Java in t && onDisk(SpringPath(projectPath)))
      && (NodeJs in t <==> AnyName(found, "package.json"))
      && (Docker in t <==> AnyName(found, "Dockerfile") || AnyName(found, "docker-compose.yml"))
  {
    LabelsShape(AnyName(found, "pom.xml") || AnyName(found, "build.gradle"), onDisk(SpringPath(projectPath)),
      AnyName(found, "requirements.txt") || AnyName(found, "setup.py"),
      AnyName(found, "package.json"),
      AnyName(found, "Dockerfile") || AnyName(found, "docker-compose.yml"));
  }

  lemma RankValues()
    ensures Rank(Java) == 0 && Rank(SpringBoot) == 1 && Rank(Python) == 2 && Rank(NodeJs) == 3 && Rank(Docker) == 4
  {
    LabelsDistinct();
  }

  /** Each label comes before every label of a higher rank: Java, Spring Boot, Python,
      Node.js, Docker. */
  predicate Ordered(t: seq<string>) {
    forall a, b :: 0 <= a < b < |t| ==> Rank(t[a]) < Rank(t[b])
  }

  /** Every label is one of the five, ranked below `n`. */
  predicate RankedBelow(t: seq<string>, n: nat) {
    forall k :: 0 <= k < |t| ==> Rank(t[k]) < n && t[k] in TechOrder
  }

  /** Gluing a list of labels ranked below `n` to at most one label of rank `n`. */
  lemma OrderedConcat(x: seq<string>, y: seq<string>, n: nat)
    requires Ordered(x) && RankedBelow(x, n)
    requires |y| <= 1 && (y != [] ==> Rank(y[0]) == n && y[0] in TechOrder)
    ensures Ordered(x + y) && RankedBelow(x + y, n + 1)
  {
  }

  /** Every found name is one of the key files, and none of them contains `setup.py`, so the
      `setup.py` test never holds: Python is detected by `requirements.txt` alone. */
  lemma SetupPyNeverDetected(top: string, walk: seq<WalkEntry>, onDisk: string -> bool, projectPath: string)
    ensures !AnyName(FoundFiles(top, walk), "setup.py")
    ensures Python in Technologies(FoundFiles(top, walk), onDisk, projectPath)
        <==> AnyName(FoundFiles(top, walk), "requirements.txt")
  {
    FoundFilesAreKeyFiles(top, walk);
    var found := FoundFiles(top, walk);
    forall k | 0 <= k < |found| ensures !Contains(found[k].name, "setup.py") {
      NoKeyFileHoldsSetupPy(found[k].name);
    }
    LabelsMembers(AnyName(found, "pom.xml") || AnyName(found, "build.gradle"), onDisk(SpringPath(projectPath)),
      AnyName(found, "requirements.txt") || AnyName(found, "setup.py"),
      AnyName(found, "package.json"),
      AnyName(found, "Dockerfile") || AnyName(found, "docker-compose.yml"));
  }

  lemma {:induction false} FoundFilesAreKeyFiles(top: string, walk: seq<WalkEntry>)
    ensures forall k :: 0 <= k < |FoundFiles(top, walk)| ==> FoundFiles(top, walk)[k].name in KeyFiles
    decreases |walk|
  {
    if walk != [] {
      FoundFilesAreKeyFiles(top, walk[..|walk| - 1]);
      var last := walk[|walk| - 1];
      KeyFilesInMembers(top, last.root, last.files);
    }
  }

  /** Each key file name lacks one of `s`, `u` and `p`, all of which `setup.py` holds. */
  lemma KeyFileLacksSOrU(name: string)
    requires name in KeyFiles
    ensures 's' !in name || 'u' !in name || 'p' !in name
  {
    if name in ["README.md", "README.rst", "pom.xml", "build.gradle"] {
      ReadmeAndBuildFilesLack(name);
    } else if name in ["package.json", "requirements.txt", "Dockerfile", "docker-compose.yml"] {
      PackageFilesLack(name);
    } else {
      ConfigFilesLack(name);
    }
  }

  lemma ReadmeAndBuildFilesLack(name: string)
    requires name in ["README.md", "README.rst", "pom.xml", "build.gradle"]
    ensures 's' !in name || 'u' !in name || 'p' !in name
  {
    if name == "README.md" { assert 's' !in "README.md"; }
    else if name == "README.rst" { assert 'u' !in "README.rst"; }
    else if name == "pom.xml" { assert 's' !in "pom.xml"; }
    else { assert 's' !in "build.gradle"; }
  }

  lemma PackageFilesLack(name: string)
    requires name in ["package.json", "requirements.txt", "Dockerfile", "docker-compose.yml"]
    ensures 's' !in name || 'u' !in name || 'p' !in name
  {
    if name == "package.json" { assert 'u' !in "package.json"; }
    else if name == "requirements.txt" { assert 'p' !in "requirements.txt"; }
    else if name == "Dockerfile" { assert 's' !in "Dockerfile"; }
    else { assert 'u' !in "docker-compose.yml"; }
  }

  lemma ConfigFilesLack(name: string)
    requires name in [".env.example", "application.properties", "application.yml"]
    ensures 's' !in name || 'u' !in name || 'p' !in name
  {
    if name == ".env.example" { assert 's' !in ".env.example"; }
    else if name == "application.properties" { assert 'u' !in "application.properties"; }
    else { assert 's' !in "application.yml"; }
  }

  lemma SetupPyLetters(name: string)
    requires Contains(name, "setup.py")
    ensures 's' in name && 'u' in name && 'p' in name
  {
    var i := ContainsWitness(name, "setup.py");
    assert name[i..i + 8] == "setup.py";
    assert name[i] == "setup.py"[0] == 's';
    assert name[i + 3] == "setup.py"[3] == 'u';
    assert name[i + 4] == "setup.py"[4] == 'p';
  }

  lemma NoKeyFileHoldsSetupPy(name: string)
    requires name in KeyFiles
    ensures !Contains(name, "setup.py")
  {
    KeyFileLacksSOrU(name);
    if Contains(name, "setup.py") {
      SetupPyLetters(name);
    }
  }

  /** A project whose only Python marker is `setup.py` gets no Python label. */
  lemma SetupPyProjectMissed(onDisk: string -> bool)
    ensures Python !in Technologies(FoundFiles("p", [WalkEntry("p", [], ["setup.py"])]), onDisk, "p")
  {
    SetupPyNeverDetected("p", [WalkEntry("p", [], ["setup.py"])], onDisk, "p");
    var walk := [WalkEntry("p", [], ["setup.py"])];
    assert walk[..0] == [];
    assert ["setup.py"][..0] == [];
    KeyFileLengths();
    assert "setup.py" !in KeyFiles;
    assert FoundFiles("p", walk) == [];
  }

  /** No key file name is eight characters long, as `setup.py` is. */
  lemma KeyFileLengths()
    ensures forall k :: 0 <= k < |KeyFiles| ==> |KeyFiles[k]| != 8
  {
  }

  /** `setup.py` anywhere in the walk. */
  predicate WalkHasFile(walk: seq<WalkEntry>, name: string) {
    exists i :: 0 <= i < |walk| && name in walk[i].files
  }

  /** The detection with the `setup.py` test made on every walked file, which is what the
      test evidently meant. */
  function TechnologiesIntended(found: seq<FoundFile>, walk: seq<WalkEntry>, onDisk: string -> bool, projectPath: string): seq<string> {
    Labels(AnyName(found, "pom.xml") || AnyName(found, "build.gradle"), onDisk(SpringPath(projectPath)),
      AnyName(found, "requirements.txt") || WalkHasFile(walk, "setup.py"),
      AnyName(found, "package.json"),
      AnyName(found, "Dockerfile") || AnyName(found, "docker-compose.yml"))
  }

  /** With the intended test a `setup.py` anywhere in the tree marks the project as Python,
      and only Python detection changes. */
  lemma SetupPyDetectedWhenIntended(top: string, walk: seq<WalkEntry>, onDisk: string -> bool, projectPath: string)
    ensures var t := TechnologiesIntended(FoundFiles(top, walk), walk, onDisk, projectPath);
      Python in t <==> AnyName(FoundFiles(top, walk), "requirements.txt") || WalkHasFile(walk, "setup.py")
    ensures !WalkHasFile(walk, "setup.py") ==>
      TechnologiesIntended(FoundFiles(top, walk), walk, onDisk, projectPath) == Technologies(FoundFiles(top, walk), onDisk, projectPath)
  {
    LabelsDistinct();
    SetupPyNeverDetected(top, walk, onDisk, projectPath);
  }
}
