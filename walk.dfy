/** What the project analyses see of a directory tree: the entries `os.walk(top)` yields, in
    the order it yields them, and the helpers they use to place each entry in the listing. */
module Walk {
  import opened Text
  import opened Paths

  /** One `(root, dirs, files)` triple of `os.walk`. */
  datatype WalkEntry = WalkEntry(root: string, dirs: seq<string>, files: seq<string>)

  /** `root.replace(top, '').count('/')`: how deep `root` sits below `top`. Replacing the
      empty string changes nothing. */
  function Level(top: string, root: string): nat {
    if top == "" then CountChar(root, '/') else CountChar(Replace(root, top, ""), '/')
  }

  /** `top` itself is at level 0. */
  lemma LevelOfTop(top: string)
    requires top != ""
    ensures Level(top, top) == 0
  {
    assert top <= top;
    assert top[|top|..] == "";
    assert !(top <= "");
    assert Replace("", top, "") == "";
    assert Replace(top, top, "") == "" + Replace("", top, "");
  }

  /** Two spaces per level. */
  function Indent(level: nat): (r: string)
    ensures |r| == 2 * level
    ensures forall i :: 0 <= i < |r| ==> r[i] == ' '
  {
    if level == 0 then "" else "  " + Indent(level - 1)
  }

  /** `os.path.relpath(os.path.join(root, file), top)` for a `root` that `os.walk(top)` gave:
      either `top` or a path below it. A `top` ending in `/` is followed directly by the
      directory names below it. */
  function RelPath(top: string, root: string, file: string): string {
    if root == top then file
    else if top != "" && top[|top| - 1] == '/' && top <= root then root[|top|..] + "/" + file
    else if top + "/" <= root then root[|top| + 1..] + "/" + file
    else Join(root, file)
  }

  /** Python `s[:n]` for `n >= 0`, on a string or a list. */
  function Take<T>(s: seq<T>, n: nat): (r: seq<T>)
    ensures |r| == Min(n, |s|)
    ensures r <= s
  {
    s[..Min(n, |s|)]
  }

  lemma TakeTake<T>(s: seq<T>, m: nat, n: nat)
    requires n <= m
    ensures Take(Take(s, m), n) == Take(s, n)
  {
  }

  /** The lines `linesOf` gives for each entry of a walk, one entry after another. */
  function WalkLines(linesOf: WalkEntry -> seq<string>, walk: seq<WalkEntry>): seq<string>
    decreases |walk|
  {
    if walk == [] then [] else WalkLines(linesOf, walk[..|walk| - 1]) + linesOf(walk[|walk| - 1])
  }

  /** One more entry adds its lines at the end. */
  lemma WalkLinesStep(linesOf: WalkEntry -> seq<string>, walk: seq<WalkEntry>, j: nat)
    requires j < |walk|
    ensures WalkLines(linesOf, walk[..j + 1]) == WalkLines(linesOf, walk[..j]) + linesOf(walk[j])
  {
    assert walk[..j + 1][..j] == walk[..j];
  }

  /** The loop over a walk that appends each entry's lines to `lines0`. */
  method AppendWalkLines(lines0: seq<string>, linesOf: WalkEntry -> seq<string>, walk: seq<WalkEntry>)
    returns (lines: seq<string>)
    ensures lines == lines0 + WalkLines(linesOf, walk)
  {
    lines := lines0;
    assert walk[..0] == [];
    for j := 0 to |walk|
      invariant lines == lines0 + WalkLines(linesOf, walk[..j])
    {
      WalkLinesStep(linesOf, walk, j);
      lines := lines + linesOf(walk[j]);
    }
    assert walk[..|walk|] == walk;
  }
}
