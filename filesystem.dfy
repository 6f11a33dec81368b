/** The part of the filesystem `save_file` touches, as a value: the contents of every file,
    the set of existing directories, and the files the process is not allowed to open for
    writing. Paths are plain strings (no normalisation). */
module FileSystem {
  import opened Text
  import opened Paths
  import opened Exceptions

  datatype Disk = Disk(files: map<string, string>, dirs: set<string>, readOnly: set<string>)

  /** No path is both a file and a directory. */
  predicate Valid(disk: Disk) {
    forall p :: p in disk.files ==> p !in disk.dirs
  }

  /** The directories `os.makedirs(d)` leaves in place: `d` and each prefix of `d` that ends
      just before a `/`. */
  function Created(d: string): set<string> {
    {d} + set i | 0 < i < |d| && d[i] == '/' :: d[..i]
  }

  /** `os.makedirs(d, exist_ok=True)`. */
  function MakeDirs(disk: Disk, d: string): (r: Outcome<Disk>)
    ensures r.Ok? <==> d != "" && forall c :: c in Created(d) ==> c !in disk.files
    ensures r.Ok? ==> r.value == disk.(dirs := disk.dirs + Created(d))
  {
    if d == "" then Raised(OSError(2, "No such file or directory", d))
    else if d in disk.files then Raised(OSError(17, "File exists", d))
    else if exists c :: c in Created(d) && c in disk.files then Raised(OSError(20, "Not a directory", d))
    else Ok(disk.(dirs := disk.dirs + Created(d)))
  }

  /** `open(p, "w")`: fails on a directory, a missing parent or a protected file, and
      otherwise creates the file or truncates it to empty. */
  function OpenForWrite(disk: Disk, p: string): (r: Outcome<Disk>)
    ensures r.Ok? <==> p !in disk.dirs && !EndsWith(p, "/") && (Dirname(p) == "" || Dirname(p) in disk.dirs)
                       && p !in disk.readOnly
    ensures r.Ok? ==> r.value == disk.(files := disk.files[p := ""])
  {
    if p in disk.dirs || EndsWith(p, "/") then Raised(OSError(21, "Is a directory", p))
    else if Dirname(p) != "" && Dirname(p) !in disk.dirs then Raised(OSError(2, "No such file or directory", p))
    else if p in disk.readOnly then Raised(OSError(13, "Permission denied", p))
    else Ok(disk.(files := disk.files[p := ""]))
  }

  /** Updating one key leaves every other key as it was. */
  lemma UpdateOthers<K, V>(m: map<K, V>, k: K, v: V)
    ensures m[k := v] - {k} == m - {k}
  {
  }

  /** `f.write(text)` on a file opened for writing. */
  function WriteText(disk: Disk, p: string, text: string): Disk {
    disk.(files := disk.files[p := text])
  }
}
