/** Reading the owner and the repository out of a GitHub repository URL, and the URL of the
    ZIP archive of one of its branches. */
module GitHubUrl {
  import opened Text
  import opened Paths
  import opened Exceptions

  /** Every part `split` returns is free of the separator. */
  lemma {:induction false} SplitParts(s: string, c: char)
    ensures forall k :: 0 <= k < |Split(s, c)| ==> c !in Split(s, c)[k]
    decreases |s|
  {
    var j := LastIndexOf(s, c);
    if j >= 0 {
      SplitParts(s[..j], c);
      var init := Split(s[..j], c);
      assert Split(s, c) == init + [s[j + 1..]];
    }
  }

  /** `split` gives at least two parts exactly when the separator occurs. */
  lemma SplitTwoOrMore(s: string, c: char)
    ensures |Split(s, c)| >= 2 <==> c in s
  {
    var j := LastIndexOf(s, c);
    if j >= 0 {
      assert |Split(s[..j], c)| >= 1;
    }
  }

  /** The last part is what follows the last separator, so the text ends with it. */
  lemma SplitLastPart(s: string, c: char)
    ensures EndsWith(s, Split(s, c)[|Split(s, c)| - 1])
  {
    var j := LastIndexOf(s, c);
    if j >= 0 {
      assert Split(s, c) == Split(s[..j], c) + [s[j + 1..]];
    }
  }

  /** The last `/`-separated part of a text is its basename. */
  lemma SplitLastIsBasename(t: string)
    ensures Split(t, '/')[|Split(t, '/')| - 1] == Basename(t)
  {
    var j := LastIndexOf(t, '/');
    if j < 0 {
      assert t[j + 1..] == t;
    }
  }

  /** When the separator occurs, the text ends with the last two parts joined by it. */
  lemma SplitLastTwo(s: string, c: char) returns (before: string, last: string)
    requires c in s
    ensures |Split(s, c)| >= 2
    ensures before == Split(s, c)[|Split(s, c)| - 2] && last == Split(s, c)[|Split(s, c)| - 1]
    ensures EndsWith(s, before + [c] + last)
  {
    before, last := SplitLastTwoParts(s, c);
    SplitLastTwoEnd(s, c, before, last);
  }

  /** The last part follows the last separator; the one before it is the last part of the text
      before that separator. */
  lemma SplitLastTwoParts(s: string, c: char) returns (before: string, last: string)
    requires c in s
    ensures |Split(s, c)| >= 2
    ensures before == Split(s, c)[|Split(s, c)| - 2] && last == Split(s, c)[|Split(s, c)| - 1]
    ensures var j := LastIndexOf(s, c);
      last == s[j + 1..] && EndsWith(s[..j], before)
  {
    var j := LastIndexOf(s, c);
    var front := Split(s[..j], c);
    last := s[j + 1..];
    before := front[|front| - 1];
    var p := Split(s, c);
    assert p == front + [last];
    assert |p| == |front| + 1 && p[|p| - 1] == last && p[|p| - 2] == before;
    SplitLastPart(s[..j], c);
  }

  lemma SplitLastTwoEnd(s: string, c: char, before: string, last: string)
    requires c in s
    requires var j := LastIndexOf(s, c);
      last == s[j + 1..] && EndsWith(s[..j], before)
    ensures EndsWith(s, before + [c] + last)
  {
    var j := LastIndexOf(s, c);
    var init := s[..j];
    assert s == init + [c] + last;
    EndsWithJoin(s, init, before, c, last);
  }

  lemma SnocLastTwo(p: seq<string>, front: seq<string>, x: string)
    requires p == front + [x] && |front| >= 1
    ensures |p| >= 2 && p[|p| - 2] == front[|front| - 1] && p[|p| - 1] == x
  {
  }

  lemma EndsWithJoin(s: string, init: string, before: string, c: char, last: string)
    requires s == init + [c] + last && EndsWith(init, before)
    ensures EndsWith(s, before + [c] + last)
  {
    var u := before + [c] + last;
    assert s[|s| - |u|..] == init[|init| - |before|..] + [c] + last;
  }

  /** The last separator of `pre + [c] + last` is the one before `last` when `last` has none. */
  lemma LastIndexOfBefore(pre: string, last: string, c: char)
    requires c !in last
    ensures LastIndexOf(pre + [c] + last, c) == |pre|
  {
    var s := pre + [c] + last;
    assert s[|pre|] == c;
    assert s[|pre| + 1..] == last;
  }

  /** `parts = url.rstrip('/').split('/')`, then `parts[-2]` and `parts[-1]`; a URL without a
      `/` once stripped has one part only, and `parts[-2]` raises. */
  function ParseRepoUrl(url: string): Outcome<(string, string)> {
    var parts := Split(RStripChar(url, '/'), '/');
    if |parts| < 2 then Raised(IndexError("list index out of range"))
    else Ok((parts[|parts| - 2], parts[|parts| - 1]))
  }

  /** The owner and the repository are the last two `/`-separated segments of the URL once its
      trailing slashes are removed: neither holds a `/`, the stripped URL ends with
      `owner/repo`, and the repository is its last segment (`ParseRepoUrlOwner` pins the owner).
      The parse fails exactly when the stripped URL has no `/`. */
  lemma ParseRepoUrlSegments(url: string)
    ensures ParseRepoUrl(url).Ok? <==> '/' in RStripChar(url, '/')
    ensures ParseRepoUrl(url).Ok? ==>
      var (owner, repo) := ParseRepoUrl(url).value;
      '/' !in owner && '/' !in repo
      && EndsWith(RStripChar(url, '/'), owner + "/" + repo)
      && repo == Basename(RStripChar(url, '/'))
    ensures ParseRepoUrl(url).Raised? ==> ParseRepoUrl(url).exc == IndexError("list index out of range")
  {
    var s := RStripChar(url, '/');
    SplitTwoOrMore(s, '/');
    SplitParts(s, '/');
    if '/' in s {
      var before, last := SplitLastTwo(s, '/');
      var joined := before + "/" + last;
      var pre := s[..|s| - |joined|] + before;
      assert s == pre + "/" + last;
      LastIndexOfBefore(pre, last, '/');
    }
  }

  /** The owner is `parts[-2]`: the last segment of what precedes the stripped URL's last `/`. */
  lemma ParseRepoUrlOwner(url: string)
    ensures ParseRepoUrl(url).Ok? ==>
      ParseRepoUrl(url).value.0 == Basename(RStripChar(url, '/')[..LastIndexOf(RStripChar(url, '/'), '/')])
  {
    var s := RStripChar(url, '/');
    var j := LastIndexOf(s, '/');
    if j >= 0 {
      assert Split(s, '/') == Split(s[..j], '/') + [s[j + 1..]];
      SplitLastIsBasename(s[..j]);
    }
  }

  /** `https://github.com/{owner}/{repo}/archive/refs/heads/{branch}.zip`. */
  function ZipUrl(owner: string, repo: string, branch: string): string {
    "https://github.com/" + owner + "/" + repo + "/archive/refs/heads/" + branch + ".zip"
  }
}
