/** POSIX path helpers with the behaviour of Python's `posixpath` (`os.path` on Linux).
    Paths are plain strings: no normalisation of `.`, `..` or repeated separators. */
module Paths {
  import opened Text

  /** `os.path.basename(p)`: the text after the last `/`. */
  function Basename(p: string): (r: string)
    ensures '/' !in r
    ensures EndsWith(p, r)
  {
    p[LastIndexOf(p, '/') + 1..]
  }

  predicate AllSlashes(s: string) {
    forall i :: 0 <= i < |s| ==> s[i] == '/'
  }

  /** `os.path.dirname(p)`: the text up to the last `/`, without trailing slashes unless it
      is made of slashes only. */
  function Dirname(p: string): string {
    var head := p[..LastIndexOf(p, '/') + 1];
    if head != "" && !AllSlashes(head) then RStripChar(head, '/') else head
  }

  lemma {:induction false} RStripCharEmpty(s: string, c: char)
    requires RStripChar(s, c) == []
    ensures forall i :: 0 <= i < |s| ==> s[i] == c
    decreases |s|
  {
    if s != [] {
      RStripCharEmpty(s[..|s| - 1], c);
    }
  }

  /** A path has an empty directory part exactly when it contains no `/`. */
  lemma DirnameEmpty(p: string)
    ensures Dirname(p) == "" <==> '/' !in p
  {
    var i := LastIndexOf(p, '/');
    var head := p[..i + 1];
    if '/' in p {
      assert head[|head| - 1] == '/';
      if !AllSlashes(head) && RStripChar(head, '/') == [] {
        RStripCharEmpty(head, '/');
      }
    }
  }

  /** `os.path.join(a, b)`. */
  function Join(a: string, b: string): string {
    if b != "" && b[0] == '/' then b
    else if a == "" || a[|a| - 1] == '/' then a + b
    else a + "/" + b
  }
}
