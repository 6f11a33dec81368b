/** The downloader that fetches a repository's `main` archive in one request, and the
    summary of a downloaded project it prints: the key files with a preview of each, and an
    outline of the tree. HTTP, what extraction leaves on disk, file reading and the tree walk
    are given as functions. */
module GitHubProjectDownloader {
  import opened Text
  import opened Paths
  import opened Exceptions
  import opened Rpc
  import opened GitHubUrl
  import opened Walk

  // ---------------------------------------------------------------------------------------
  // Downloading the `main` archive

  /** The folder the `main` archive usually extracts to. */
  function MainFolder(downloadPath: string, repo: string): string {
    Join(downloadPath, repo + "-main")
  }

  /** `download_github_repo`: parse the URL, get the `main` archive with no timeout and check
      its status; then the extracted folder is `{repo}-main` when `present` says it exists
      after extraction, and `{repo}` otherwise. */
  function Download(url: string, downloadPath: string, net: HttpGet -> HttpOutcome, present: string -> bool): Outcome<string> {
    match ParseRepoUrl(url)
    case Raised(e) => Raised(e)
    case Ok((owner, repo)) =>
      match net(HttpGet(ZipUrl(owner, repo, "main"), NoTimeout))
      case Failed(m) => Raised(RequestException(m))
      case Response(status, reason, finalUrl, _) =>
        if RaisesForStatus(status) then Raised(StatusError(status, reason, finalUrl))
        else if present(MainFolder(downloadPath, repo)) then Ok(MainFolder(downloadPath, repo))
        else Ok(Join(downloadPath, repo))
  }

  /** Once the URL parses, the one request made is for the `main` archive; the download
      succeeds exactly when that request gives a status that does not raise, and the folder
      is `{repo}-main` if it exists and `{repo}` otherwise. */
  lemma DownloadFolderFallback(url: string, downloadPath: string, net: HttpGet -> HttpOutcome, present: string -> bool, owner: string, repo: string)
    requires ParseRepoUrl(url) == Ok((owner, repo))
    ensures var response := net(HttpGet(ZipUrl(owner, repo, "main"), NoTimeout));
      var r := Download(url, downloadPath, net, present);
      (r.Ok? <==> response.Response? && !RaisesForStatus(response.status))
      && (r.Ok? && present(MainFolder(downloadPath, repo)) ==> r.value == MainFolder(downloadPath, repo))
      && (r.Ok? && !present(MainFolder(downloadPath, repo)) ==> r.value == Join(downloadPath, repo))
      && (response.Failed? ==> r == Raised(RequestException(response.message)))
      && (response.Response? && RaisesForStatus(response.status) ==>
            r == Raised(StatusError(response.status, response.reason, response.finalUrl)))
  {
  }

  /** Two HTTP layers that answer the `main` archive request alike give the same download:
      no other branch and no other URL is ever asked for. */
  lemma DownloadAsksMainOnly(url: string, downloadPath: string, net1: HttpGet -> HttpOutcome, net2: HttpGet -> HttpOutcome, present: string -> bool)
    requires ParseRepoUrl(url).Ok?
    requires var (owner, repo) := ParseRepoUrl(url).value;
      net1(HttpGet(ZipUrl(owner, repo, "main"), NoTimeout)) == net2(HttpGet(ZipUrl(owner, repo, "main"), NoTimeout))
    ensures Download(url, downloadPath, net1, present) == Download(url, downloadPath, net2, present)
  {
  }

  /** A URL with no `/` once its trailing slashes are removed fails on `parts[-2]`, before
      any request. */
  lemma DownloadBadUrl(url: string, downloadPath: string, net: HttpGet -> HttpOutcome, present: string -> bool)
    requires '/' !in RStripChar(url, '/')
    ensures Download(url, downloadPath, net, present) == Raised(IndexError("list index out of range"))
  {
    ParseRepoUrlSegments(url);
  }

  /** The folder is named after the URL's last segment. */
  lemma DownloadNamesLastSegment(url: string, downloadPath: string, net: HttpGet -> HttpOutcome, present: string -> bool)
    requires Download(url, downloadPath, net, present).Ok?
    ensures var repo := Basename(RStripChar(url, '/'));
      Download(url, downloadPath, net, present).value in {MainFolder(downloadPath, repo), Join(downloadPath, repo)}
  {
    ParseRepoUrlSegments(url);
    var (owner, repo) := ParseRepoUrl(url).value;
    DownloadFolderFallback(url, downloadPath, net, present, owner, repo);
  }

  // ---------------------------------------------------------------------------------------
  // Key files and their previews

  /** The names looked for, as exact file names. */
  const KeyFiles: seq<string> := ["README.md", "pom.xml", "build.gradle", "package.json", "requirements.txt", "Dockerfile"]

  const ReadChars: nat := 1000
  const PreviewChars: nat := 200

  function NameLine(projectPath: string): string {
    "📁 Projeto: " + Basename(projectPath)
  }

  function LocationLine(projectPath: string): string {
    "📍 Localização: " + projectPath + "\n"
  }

  function ReportHeadLine(rel: string): string {
    "\n📄 " + rel + ":"
  }

  function PreviewLine(preview: string): string {
    "   Primeiras linhas: " + preview + "..."
  }

  function ReadErrorLine(rel: string, e: Exc): string {
    "\n📄 " + rel + ": (erro ao ler - " + Describe(e) + ")"
  }

  /** The lines for one key file. `read(path)` opens and reads the whole file as UTF-8, or
      gives the exception doing so raised; the first 1000 characters are kept and 200 of
      those shown. */
  function FileReport(read: string -> Outcome<string>, rel: string, full: string): seq<string> {
    match read(full)
    case Ok(content) =>
      var kept := Take(content, ReadChars);
      [ReportHeadLine(rel), PreviewLine(Take(kept, PreviewChars))]
    case Raised(e) => [ReadErrorLine(rel, e)]
  }

  /** A readable key file shows its first (at most) 200 characters; one that cannot be read
      gives a single line naming the error, and nothing is raised. */
  lemma FileReportShape(read: string -> Outcome<string>, rel: string, full: string)
    ensures read(full).Ok? ==>
      FileReport(read, rel, full) == [ReportHeadLine(rel), PreviewLine(Take(read(full).value, PreviewChars))]
      && |Take(read(full).value, PreviewChars)| <= 200 && Take(read(full).value, PreviewChars) <= read(full).value
    ensures read(full).Raised? ==> FileReport(read, rel, full) == [ReadErrorLine(rel, read(full).exc)]
  {
    if read(full).Ok? {
      TakeTake(read(full).value, ReadChars, PreviewChars);
    }
  }

  /** The relative paths of the key files among `files` of the entry at `root`, in order. */
  function EntryFound(top: string, root: string, files: seq<string>): seq<string>
    decreases |files|
  {
    if files == [] then []
    else
      var f := files[|files| - 1];
      EntryFound(top, root, files[..|files| - 1]) + (if f in KeyFiles then [RelPath(top, root, f)] else [])
  }

  /** The report lines for the key files among `files` of the entry at `root`, in order. */
  function EntryReports(top: string, read: string -> Outcome<string>, root: string, files: seq<string>): seq<string>
    decreases |files|
  {
    if files == [] then []
    else
      var f := files[|files| - 1];
      EntryReports(top, read, root, files[..|files| - 1])
      + (if f in KeyFiles then FileReport(read, RelPath(top, root, f), Join(root, f)) else [])
  }

  /** A path is found exactly when it is the relative path of a file of the entry whose name
      is one of the key files. */
  lemma EntryFoundMembers(top: string, root: string, files: seq<string>, p: string)
    ensures p in EntryFound(top, root, files) <==>
      exists j :: 0 <= j < |files| && files[j] in KeyFiles && p == RelPath(top, root, files[j])
  {
    if p in EntryFound(top, root, files) {
      var j := EntryFoundFrom(top, root, files, p);
    }
    if exists j :: 0 <= j < |files| && files[j] in KeyFiles && p == RelPath(top, root, files[j]) {
      var j :| 0 <= j < |files| && files[j] in KeyFiles && p == RelPath(top, root, files[j]);
      EntryFoundHas(top, root, files, j);
    }
  }

  /** A found path comes from a key file of the entry. */
  lemma {:induction false} EntryFoundFrom(top: string, root: string, files: seq<string>, p: string) returns (j: nat)
    requires p in EntryFound(top, root, files)
    ensures j < |files| && files[j] in KeyFiles && p == RelPath(top, root, files[j])
    decreases |files|
  {
    var init, f := files[..|files| - 1], files[|files| - 1];
    var extra := if f in KeyFiles then [RelPath(top, root, f)] else [];
    assert EntryFound(top, root, files) == EntryFound(top, root, init) + extra;
    if p in EntryFound(top, root, init) {
      j := EntryFoundFrom(top, root, init, p);
      assert files[j] == init[j];
    } else {
      j := |files| - 1;
    }
  }

  /** Every key file of the entry is found, under its relative path. */
  lemma {:induction false} EntryFoundHas(top: string, root: string, files: seq<string>, j: nat)
    requires j < |files| && files[j] in KeyFiles
    ensures RelPath(top, root, files[j]) in EntryFound(top, root, files)
    decreases |files|
  {
    var init, f := files[..|files| - 1], files[|files| - 1];
    var extra := if f in KeyFiles then [RelPath(top, root, f)] else [];
    assert EntryFound(top, root, files) == EntryFound(top, root, init) + extra;
    if j < |init| {
      assert init[j] == files[j];
      EntryFoundHas(top, root, init, j);
    } else {
      assert extra == [RelPath(top, root, files[j])];
    }
  }

  /** At the top of the walk the found paths are the key file names themselves. */
  lemma TopEntryFoundNames(top: string, files: seq<string>)
    ensures forall p :: p in EntryFound(top, top, files) <==> p in files && p in KeyFiles
  {
    forall p ensures p in EntryFound(top, top, files) <==> p in files && p in KeyFiles {
      EntryFoundMembers(top, top, files, p);
      if p in files && p in KeyFiles {
        var j :| 0 <= j < |files| && files[j] == p;
        assert RelPath(top, top, files[j]) == p;
      }
    }
  }

  function EntryFoundOf(top: string): WalkEntry -> seq<string> {
    (e: WalkEntry) => EntryFound(top, e.root, e.files)
  }

  function EntryReportsOf(top: string, read: string -> Outcome<string>): WalkEntry -> seq<string> {
    (e: WalkEntry) => EntryReports(top, read, e.root, e.files)
  }

  /** `found_files` after the walk: every entry's key files, in walk order. */
  function Found(top: string, walk: seq<WalkEntry>): seq<string> {
    WalkLines(EntryFoundOf(top), walk)
  }

  /** The report lines of the walk, in walk order. */
  function Reports(top: string, read: string -> Outcome<string>, walk: seq<WalkEntry>): seq<string> {
    WalkLines(EntryReportsOf(top, read), walk)
  }

  lemma ScanStep(top: string, read: string -> Outcome<string>, root: string, files: seq<string>, j: nat)
    requires j < |files|
    ensures EntryFound(top, root, files[..j + 1])
         == EntryFound(top, root, files[..j]) + (if files[j] in KeyFiles then [RelPath(top, root, files[j])] else [])
    ensures EntryReports(top, read, root, files[..j + 1])
         == EntryReports(top, read, root, files[..j])
            + (if files[j] in KeyFiles then FileReport(read, RelPath(top, root, files[j]), Join(root, files[j])) else [])
  {
    assert files[..j + 1][..j] == files[..j];
  }

  /** The inner loop over the files of one walk entry. */
  method ScanEntry(top: string, read: string -> Outcome<string>, root: string, files: seq<string>,
                   found0: seq<string>, lines0: seq<string>)
    returns (found: seq<string>, lines: seq<string>)
    ensures found == found0 + EntryFound(top, root, files)
    ensures lines == lines0 + EntryReports(top, read, root, files)
  {
    found, lines := found0, lines0;
    assert files[..0] == [];
    for j := 0 to |files|
      invariant found == found0 + EntryFound(top, root, files[..j])
      invariant lines == lines0 + EntryReports(top, read, root, files[..j])
    {
      ScanStep(top, read, root, files, j);
      var file := files[j];
      if file in KeyFiles {
        var filePath := Join(root, file);
        var rel := RelPath(top, root, file);
        AppendAssoc(found0, EntryFound(top, root, files[..j]), [rel]);
        found := found + [rel];
        AppendAssoc(lines0, EntryReports(top, read, root, files[..j]), FileReport(read, rel, filePath));
        match read(filePath) {
          case Ok(text) =>
            var content := Take(text, ReadChars);
            lines := lines + [ReportHeadLine(rel), PreviewLine(Take(content, PreviewChars))];
          case Raised(e) =>
            lines := lines + [ReadErrorLine(rel, e)];
        }
      } else {
        assert found == found + [];
        assert lines == lines + [];
      }
    }
    assert files[..|files|] == files;
  }

  /** The outer loop over the walk that collects the key files and their reports. */
  method ScanKeyFiles(top: string, read: string -> Outcome<string>, walk: seq<WalkEntry>, lines0: seq<string>)
    returns (found: seq<string>, lines: seq<string>)
    ensures found == Found(top, walk)
    ensures lines == lines0 + Reports(top, read, walk)
  {
    found, lines := [], lines0;
    assert walk[..0] == [];
    for i := 0 to |walk|
      invariant found == Found(top, walk[..i])
      invariant lines == lines0 + Reports(top, read, walk[..i])
    {
      WalkLinesStep(EntryFoundOf(top), walk, i);
      WalkLinesStep(EntryReportsOf(top, read), walk, i);
      var e := walk[i];
      AppendAssoc(lines0, Reports(top, read, walk[..i]), EntryReports(top, read, e.root, e.files));
      found, lines := ScanEntry(top, read, e.root, e.files, found, lines);
    }
    assert walk[..|walk|] == walk;
  }

  // ---------------------------------------------------------------------------------------
  // The tree outline

  const MaxLevel: nat := 2
  const MaxListed: nat := 5

  function FolderLine(level: nat, root: string): string {
    Indent(level) + Basename(root) + "/"
  }

  function ListedLine(level: nat, file: string): string {
    Indent(level + 1) + file
  }

  function MoreFilesLine(level: nat, n: nat): string {
    Indent(level + 1) + "... and " + NatToString(n) + " more files"
  }

  /** One line per listed file. */
  function ListedLines(level: nat, shown: seq<string>): (r: seq<string>)
    ensures |r| == |shown|
    ensures forall k :: 0 <= k < |shown| ==> r[k] == ListedLine(level, shown[k])
  {
    seq(|shown|, k requires 0 <= k < |shown| => ListedLine(level, shown[k]))
  }

  /** The outline lines for one walk entry. */
  function TreeLines(top: string, e: WalkEntry): seq<string> {
    var level := Level(top, e.root);
    if level > MaxLevel then []
    else
      [FolderLine(level, e.root)]
      + (if level < MaxLevel then
           ListedLines(level, Take(e.files, MaxListed))
           + (if |e.files| > MaxListed then [MoreFilesLine(level, |e.files| - MaxListed)] else [])
         else [])
  }

  function TreeLinesOf(top: string): WalkEntry -> seq<string> {
    (e: WalkEntry) => TreeLines(top, e)
  }

  /** The outline of the whole walk. */
  function Tree(top: string, walk: seq<WalkEntry>): seq<string> {
    WalkLines(TreeLinesOf(top), walk)
  }

  /** Entries below level 2 print nothing; level 2 prints only its folder line; levels 0 and 1
      print the folder line, the first five files one level further in, and a count of the
      others when there are more than five. */
  lemma TreeLinesShape(top: string, e: WalkEntry)
    ensures Level(top, e.root) > 2 ==> TreeLines(top, e) == []
    ensures Level(top, e.root) == 2 ==> TreeLines(top, e) == [FolderLine(2, e.root)]
    ensures Level(top, e.root) < 2 ==>
      var lines := TreeLines(top, e);
      var level := Level(top, e.root);
      |lines| == 1 + Min(5, |e.files|) + (if |e.files| > 5 then 1 else 0)
      && lines[0] == FolderLine(level, e.root)
      && (forall k :: 0 <= k < Min(5, |e.files|) ==> lines[1 + k] == ListedLine(level, e.files[k]))
      && (|e.files| > 5 ==> lines[|lines| - 1] == MoreFilesLine(level, |e.files| - 5))
  {
    var level := Level(top, e.root);
    if level < MaxLevel {
      var head := [FolderLine(level, e.root)];
      var tail := if |e.files| > MaxListed then [MoreFilesLine(level, |e.files| - MaxListed)] else [];
      assert TreeLines(top, e) == head + ListedLines(level, Take(e.files, MaxListed)) + tail;
      ListedAt(TreeLines(top, e), head, level, e.files, tail);
    } else if level == MaxLevel {
      assert TreeLines(top, e) == [FolderLine(level, e.root)] + [];
    }
  }

  /** Where the listed files and the count line sit among an entry's lines. */
  lemma ListedAt(lines: seq<string>, head: seq<string>, level: nat, files: seq<string>, tail: seq<string>)
    requires lines == head + ListedLines(level, Take(files, MaxListed)) + tail
    ensures |lines| == |head| + Min(5, |files|) + |tail|
    ensures forall k :: 0 <= k < Min(5, |files|) ==> lines[|head| + k] == ListedLine(level, files[k])
    ensures |head| > 0 ==> lines[0] == head[0]
    ensures |tail| == 1 ==> lines[|lines| - 1] == tail[0]
  {
    var shown := Take(files, MaxListed);
    ThreeParts(head, ListedLines(level, shown), tail);
    assert shown == files[..|shown|];
    forall k | 0 <= k < |shown| ensures lines[|head| + k] == ListedLine(level, files[k]) {
      assert shown[k] == files[..|shown|][k];
    }
  }

  // ---------------------------------------------------------------------------------------
  // The whole summary

  function SummaryLine(found: seq<string>): string {
    "\n🔍 Arquivos chave encontrados: " + JoinWith(", ", found)
  }

  const StructureHeading := "\n🏗️ Estrutura do projeto:"

  /** The summary line, when anything was found. */
  function Summary(found: seq<string>): seq<string> {
    if found == [] then [] else [SummaryLine(found)]
  }

  /** The body of the summary after the two header lines. */
  function AnalysisBody(top: string, read: string -> Outcome<string>, walk: seq<WalkEntry>): seq<string> {
    Reports(top, read, walk) + Summary(Found(top, walk)) + [StructureHeading] + Tree(top, walk)
  }

  /** `analysis` once both walks are done: the project name and location, the key file
      reports, the summary line when something was found, the outline heading and the
      outline. */
  function AnalysisLines(projectPath: string, read: string -> Outcome<string>, walk: seq<WalkEntry>): seq<string> {
    [NameLine(projectPath), LocationLine(projectPath)] + AnalysisBody(projectPath, read, walk)
  }

  /** `analyze_project_structure(project_path)`, where `walk` is what `os.walk(project_path)`
      yields (both walks see the same tree: nothing is written in between). */
  method AnalyzeProjectStructure(projectPath: string, read: string -> Outcome<string>, walk: seq<WalkEntry>)
    returns (text: string)
    ensures text == JoinWith("\n", AnalysisLines(projectPath, read, walk))
  {
    var header := [NameLine(projectPath), LocationLine(projectPath)];
    var found, analysis := ScanKeyFiles(projectPath, read, walk, header);
    if found != [] {
      analysis := analysis + [SummaryLine(found)];
    } else {
      assert analysis == analysis + [];
    }
    analysis := analysis + [StructureHeading];
    analysis := AppendWalkLines(analysis, TreeLinesOf(projectPath), walk);
    AppendAssoc4(header, Reports(projectPath, read, walk), Summary(found), [StructureHeading], Tree(projectPath, walk));
    text := JoinWith("\n", analysis);
  }

  lemma AppendAssoc4<T>(h: seq<T>, a: seq<T>, b: seq<T>, c: seq<T>, d: seq<T>)
    ensures h + a + b + c + d == h + (a + b + c + d)
  {
  }

  /** The summary line sits right after the reports exactly when a key file was found;
      otherwise the outline heading does. */
  lemma SummaryPlacement(projectPath: string, read: string -> Outcome<string>, walk: seq<WalkEntry>)
    ensures var lines := AnalysisLines(projectPath, read, walk);
      var n := 2 + |Reports(projectPath, read, walk)|;
      var found := Found(projectPath, walk);
      n < |lines|
      && (found != [] ==> lines[n] == SummaryLine(found) && lines[n + 1] == StructureHeading)
      && (lines[n] == StructureHeading <==> found == [])
  {
    var header := [NameLine(projectPath), LocationLine(projectPath)];
    var reports := Reports(projectPath, read, walk);
    var found := Found(projectPath, walk);
    var rest := Summary(found) + [StructureHeading] + Tree(projectPath, walk);
    var lines := AnalysisLines(projectPath, read, walk);
    assert lines == (header + reports) + rest;
    assert lines[2 + |reports|] == rest[0];
    if found != [] {
      assert lines[2 + |reports| + 1] == rest[1];
      HeadingIsNotSummary(found);
    }
  }

  lemma HeadingIsNotSummary(found: seq<string>)
    ensures StructureHeading != SummaryLine(found)
  {
    assert SummaryLine(found)[1] == '🔍';
    assert StructureHeading[1] == '🏗';
  }

  /** The text starts with the project-name line and the location line, each followed by the
      separator. */
  lemma AnalysisStartsWithProject(projectPath: string, read: string -> Outcome<string>, walk: seq<WalkEntry>)
    ensures NameLine(projectPath) + "\n" + LocationLine(projectPath) + "\n"
         <= JoinWith("\n", AnalysisLines(projectPath, read, walk))
  {
    var body := AnalysisBody(projectPath, read, walk);
    assert |body| >= 1;
    JoinWithFirstTwo("\n", NameLine(projectPath), LocationLine(projectPath), body);
  }
}
