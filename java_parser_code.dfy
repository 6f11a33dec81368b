/** Extracting Java snippets from a page: fetch it, take the text of the elements every
    selector matches, strip it, and keep each text once if it looks like Java. The CSS
    selection is given as a function from a page and a selector to the matched texts. */
module JavaParserCode {
  import opened Text
  import opened Rpc

  const FetchTimeout: nat := 10

  /** The fifteen markers of Java source, matched ignoring ASCII case. */
  const Indicators: seq<string> := [
    "public class", "private class", "protected class",
    "public static void main", "@SpringBootApplication",
    "import java.", "import org.springframework",
    "package com.", "package org.",
    "@RestController", "@GetMapping", "@PostMapping",
    "@Autowired", "@Component", "@Service"]

  /** The selectors tried, in order. */
  const Selectors: seq<string> := [
    "pre code", "code", ".highlight pre", ".code-block pre",
    "pre > code.language-java", "code.language-java",
    "pre > code[class*='java']", "code[class*='java']",
    ".highlight-java code", ".language-java"]

  /** `any(ind.lower() in lowered for ind in inds)`. */
  predicate AnyIndicator(lowered: string, inds: seq<string>)
    decreases |inds|
  {
    inds != [] && (Contains(lowered, Lower(inds[0])) || AnyIndicator(lowered, inds[1..]))
  }

  lemma {:induction false} AnyIndicatorExists(lowered: string, inds: seq<string>)
    ensures AnyIndicator(lowered, inds) <==> exists k :: 0 <= k < |inds| && Contains(lowered, Lower(inds[k]))
    decreases |inds|
  {
    if inds != [] {
      AnyIndicatorExists(lowered, inds[1..]);
      if Contains(lowered, Lower(inds[0])) {
        assert Contains(lowered, Lower(inds[0]));
      }
      if exists k :: 0 <= k < |inds| && Contains(lowered, Lower(inds[k])) {
        var k :| 0 <= k < |inds| && Contains(lowered, Lower(inds[k]));
        if k > 0 {
          assert inds[1..][k - 1] == inds[k];
        }
      }
    }
  }

  /** `is_likely_java_code`: an indicator occurs, or the text has both braces and more than
      fifty characters. */
  predicate IsLikelyJavaCode(text: string) {
    AnyIndicator(Lower(text), Indicators) || ('{' in text && '}' in text && |text| > 50)
  }

  /** Both directions of the heuristic, with the indicator test written out. */
  lemma IsLikelyJavaCodeIff(text: string)
    ensures IsLikelyJavaCode(text) <==>
      (exists k :: 0 <= k < |Indicators| && Contains(Lower(text), Lower(Indicators[k])))
      || ('{' in text && '}' in text && |text| > 50)
  {
    AnyIndicatorExists(Lower(text), Indicators);
  }

  /** Texts that agree after ASCII lower-casing agree on the indicator test. */
  lemma IndicatorIgnoresCase(a: string, b: string)
    requires Lower(a) == Lower(b)
    ensures AnyIndicator(Lower(a), Indicators) == AnyIndicator(Lower(b), Indicators)
  {
  }

  lemma LowerPublicClass()
    ensures Lower("PUBLIC CLASS x") == "public class x"
  {
    var s := "PUBLIC CLASS x";
    var l := Lower(s);
    forall i | 0 <= i < |s| ensures l[i] == "public class x"[i] {
      assert l[i] == LowerChar(s[i]);
    }
  }

  /** Upper-case `PUBLIC CLASS` counts as the `public class` indicator. */
  lemma UpperCaseIndicator()
    ensures IsLikelyJavaCode("PUBLIC CLASS x")
  {
    LowerPublicClass();
    assert Lower("public class") == "public class" by {
      var l := Lower("public class");
      forall i | 0 <= i < 12 ensures l[i] == "public class"[i] {
        assert l[i] == LowerChar("public class"[i]);
      }
    }
    assert "public class" <= "public class x";
    assert Contains("public class x", Lower(Indicators[0]));
  }

  /** The texts of the matched elements across all selectors, selector by selector. */
  function Candidates(select: (string, string) -> seq<string>, page: string, selectors: seq<string>): seq<string>
    decreases |selectors|
  {
    if selectors == [] then []
    else Candidates(select, page, selectors[..|selectors| - 1]) + select(page, selectors[|selectors| - 1])
  }

  /** One element's text offered to the list: kept, stripped, when it is non-empty, looks like
      Java and is not already there. */
  function Admit(codes: seq<string>, raw: string): seq<string> {
    var t := Strip(raw);
    if t != "" && IsLikelyJavaCode(t) && t !in codes then codes + [t] else codes
  }

  /** The list built from the texts `raws`, offered one at a time in order. */
  function Kept(raws: seq<string>): seq<string>
    decreases |raws|
  {
    if raws == [] then [] else Admit(Kept(raws[..|raws| - 1]), raws[|raws| - 1])
  }

  function Stripped(raws: seq<string>): (r: seq<string>)
    ensures |r| == |raws|
    ensures forall i :: 0 <= i < |raws| ==> r[i] == Strip(raws[i])
  {
    seq(|raws|, i requires 0 <= i < |raws| => Strip(raws[i]))
  }

  lemma KeptSnoc(raws: seq<string>, x: string)
    ensures Kept(raws + [x]) == Admit(Kept(raws), x)
    ensures Stripped(raws + [x]) == Stripped(raws) + [Strip(x)]
  {
    assert (raws + [x])[..|raws|] == raws;
  }

  /** A text is in the list exactly when it is the stripped text of some element, non-empty
      and looks like Java. */
  lemma {:induction false} KeptMembers(raws: seq<string>, t: string)
    ensures t in Kept(raws) <==> t != "" && IsLikelyJavaCode(t) && t in Stripped(raws)
    decreases |raws|
  {
    if raws != [] {
      var init, x := raws[..|raws| - 1], raws[|raws| - 1];
      assert raws == init + [x];
      KeptMembers(init, t);
      KeptSnoc(init, x);
    }
  }

  /** No text is kept twice. */
  lemma {:induction false} KeptDistinct(raws: seq<string>)
    ensures forall a, b :: 0 <= a < b < |Kept(raws)| ==> Kept(raws)[a] != Kept(raws)[b]
    decreases |raws|
  {
    if raws != [] {
      KeptDistinct(raws[..|raws| - 1]);
    }
  }

  /** Every kept text is stripped already, non-empty and looks like Java. */
  lemma KeptWellFormed(raws: seq<string>)
    ensures forall k :: 0 <= k < |Kept(raws)| ==>
      Kept(raws)[k] != "" && IsLikelyJavaCode(Kept(raws)[k]) && Strip(Kept(raws)[k]) == Kept(raws)[k]
  {
    forall k | 0 <= k < |Kept(raws)|
      ensures Kept(raws)[k] != "" && IsLikelyJavaCode(Kept(raws)[k]) && Strip(Kept(raws)[k]) == Kept(raws)[k]
    {
      var t := Kept(raws)[k];
      KeptMembers(raws, t);
      var i :| 0 <= i < |raws| && Stripped(raws)[i] == t;
      StripIdempotent(raws[i]);
    }
  }

  /** Position of the first occurrence of `x` in `s`. */
  function FirstIndex(s: seq<string>, x: string): (i: nat)
    requires x in s
    ensures i < |s| && s[i] == x && x !in s[..i]
    decreases |s|
  {
    if s[0] == x then 0
    else
      var j := FirstIndex(s[1..], x);
      assert s[1..][..j] == s[1..j + 1];
      j + 1
  }

  lemma FirstIndexPrefix(s: seq<string>, t: seq<string>, x: string)
    requires x in s
    ensures FirstIndex(s + t, x) == FirstIndex(s, x)
  {
    var i := FirstIndex(s, x);
    var j := FirstIndex(s + t, x);
    assert (s + t)[i] == x;
    assert (s + t)[..i] == s[..i];
  }

  /** The list follows the order in which the texts first occur among the stripped elements. */
  lemma {:induction false} KeptInFirstOccurrenceOrder(raws: seq<string>)
    ensures forall k :: 0 <= k < |Kept(raws)| ==> Kept(raws)[k] in Stripped(raws)
    ensures forall a, b :: 0 <= a < b < |Kept(raws)| ==>
      FirstIndex(Stripped(raws), Kept(raws)[a]) < FirstIndex(Stripped(raws), Kept(raws)[b])
    decreases |raws|
  {
    if raws != [] {
      var init, x := raws[..|raws| - 1], raws[|raws| - 1];
      assert raws == init + [x];
      KeptInFirstOccurrenceOrder(init);
      KeptSnoc(init, x);
      var before, s0 := Kept(init), Stripped(init);
      forall k | 0 <= k < |before| ensures FirstIndex(s0 + [Strip(x)], before[k]) == FirstIndex(s0, before[k]) {
        FirstIndexPrefix(s0, [Strip(x)], before[k]);
      }
      if Kept(raws) != before {
        var t := Strip(x);
        KeptMembers(init, t);
        assert t !in s0;
        assert FirstIndex(s0 + [t], t) == |s0| by {
          assert (s0 + [t])[..|s0|] == s0;
        }
      }
    }
  }

  /** `fetch_java_code(url)`: a request failure or an error status gives the empty list;
      otherwise every selector's matches are offered, in order, to the list. */
  method FetchJavaCode(url: string, net: HttpGet -> HttpOutcome, select: (string, string) -> seq<string>)
    returns (codes: seq<string>)
    ensures var r := net(HttpGet(url, Seconds(FetchTimeout)));
      codes == if r.Failed? || RaisesForStatus(r.status) then [] else Kept(Candidates(select, r.text, Selectors))
  {
    var response := net(HttpGet(url, Seconds(FetchTimeout)));
    if response.Failed? || RaisesForStatus(response.status) {
      return [];
    }
    var page := response.text;
    codes := [];
    for i := 0 to |Selectors|
      invariant codes == Kept(Candidates(select, page, Selectors[..i]))
    {
      var blocks := select(page, Selectors[i]);
      codes := OfferAll(codes, blocks, Candidates(select, page, Selectors[..i]));
      assert Selectors[..i + 1][..i] == Selectors[..i];
    }
    assert Selectors[..|Selectors|] == Selectors;
  }

  lemma OfferStep(seen: seq<string>, blocks: seq<string>, j: nat)
    requires j < |blocks|
    ensures Kept(seen + blocks[..j + 1]) == Admit(Kept(seen + blocks[..j]), blocks[j])
  {
    assert seen + blocks[..j + 1] == (seen + blocks[..j]) + [blocks[j]];
    KeptSnoc(seen + blocks[..j], blocks[j]);
  }

  /** The inner loop: offer the matches of one selector, in order, to the list built so far
      from the texts `seen`. */
  method OfferAll(codes0: seq<string>, blocks: seq<string>, ghost seen: seq<string>) returns (codes: seq<string>)
    requires codes0 == Kept(seen)
    ensures codes == Kept(seen + blocks)
  {
    codes := codes0;
    assert seen + blocks[..0] == seen;
    for j := 0 to |blocks|
      invariant codes == Kept(seen + blocks[..j])
    {
      ghost var before := codes;
      var text := Strip(blocks[j]);
      if text != "" && IsLikelyJavaCode(text) && text !in codes {
        codes := codes + [text];
      }
      assert codes == Admit(before, blocks[j]);
      OfferStep(seen, blocks, j);
    }
    assert blocks[..|blocks|] == blocks;
  }
}
