/** Standard input as the servers read it: `sys.stdin.readline()` on the text still unread.
    The text is taken after Python's newline translation, so every line ends in `\n` except
    possibly the last. */
module Stdio {
  import opened Text

  /** `readline()`: the unread text up to and including the first newline, or all of it.
      It returns "" only at end of stream. */
  function ReadLine(rest: string): (line: string)
    ensures line <= rest
    ensures line == "" <==> rest == ""
  {
    var i := IndexOf(rest, '\n');
    if i < 0 then rest else rest[..i + 1]
  }

  /** The lines `readline()` returns, in order, before it first returns "". */
  function Lines(input: string): seq<string>
    decreases |input|
  {
    if input == "" then [] else var line := ReadLine(input); [line] + Lines(input[|line|..])
  }

  /** A line read off the input is the first of its lines. */
  lemma LinesStep(rest: string)
    requires ReadLine(rest) != ""
    ensures Lines(rest) == [ReadLine(rest)] + Lines(rest[|ReadLine(rest)|..])
  {
  }

  /** Reading line by line consumes the whole input and loses nothing. */
  lemma {:induction false} LinesConcat(input: string)
    ensures Concat(Lines(input)) == input
    decreases |input|
  {
    if input != "" {
      var line := ReadLine(input);
      LinesConcat(input[|line|..]);
      PrefixSplit(line, input);
    }
  }

  /** Every line is non-empty, holds a newline only as its last character, and every line but
      the last ends with one. */
  lemma {:induction false} LinesShape(input: string)
    ensures forall k :: 0 <= k < |Lines(input)| ==> Lines(input)[k] != ""
    ensures forall k :: 0 <= k < |Lines(input)| ==>
      '\n' !in Lines(input)[k][..|Lines(input)[k]| - 1]
    ensures forall k :: 0 <= k < |Lines(input)| - 1 ==>
      Lines(input)[k][|Lines(input)[k]| - 1] == '\n'
    decreases |input|
  {
    if input != "" {
      var line := ReadLine(input);
      var rest := input[|line|..];
      LinesShape(rest);
      var i := IndexOf(input, '\n');
      if i < 0 {
        assert rest == "";
      } else {
        assert line[..|line| - 1] == input[..i];
      }
      assert Lines(input) == [line] + Lines(rest);
    }
  }

  /** There is one line per newline, plus one for unterminated text at the end. */
  lemma {:induction false} LinesCount(input: string)
    ensures |Lines(input)| ==
      CountChar(input, '\n') + (if input != "" && input[|input| - 1] != '\n' then 1 else 0)
    decreases |input|
  {
    if input != "" {
      var line := ReadLine(input);
      var rest := input[|line|..];
      LinesCount(rest);
      LinesStep(input);
      PrefixSplit(line, input);
      CountCharAppend(line, rest, '\n');
      ReadLineCount(input);
      if rest != "" {
        assert input[|input| - 1] == rest[|rest| - 1];
      } else {
        assert input[|input| - 1] == line[|line| - 1];
      }
    }
  }

  /** A line read holds one newline, at its end, when the text has one, and none otherwise. */
  lemma ReadLineCount(input: string)
    requires input != ""
    ensures CountChar(ReadLine(input), '\n') == if '\n' in input then 1 else 0
    ensures '\n' !in input ==> ReadLine(input) == input
    ensures '\n' in input ==> ReadLine(input)[|ReadLine(input)| - 1] == '\n'
  {
    var i := IndexOf(input, '\n');
    if i < 0 {
      NoNewlineCount(input);
    } else {
      var line := ReadLine(input);
      assert line == input[..i] + "\n";
      NoNewlineCount(input[..i]);
      CountCharAppend(input[..i], "\n", '\n');
    }
  }

  lemma {:induction false} NoNewlineCount(s: string)
    requires '\n' !in s
    ensures CountChar(s, '\n') == 0
    decreases |s|
  {
    if s != [] {
      NoNewlineCount(s[1..]);
    }
  }

  /** A blank line is a line to answer, not the end of the stream. */
  lemma BlankLineIsNotEnd(rest: string)
    ensures Lines("\n" + rest) == ["\n"] + Lines(rest)
  {
    var input := "\n" + rest;
    assert IndexOf(input, '\n') == 0;
    assert input[1..] == rest;
  }

  /** The first `c` of `a + b` is the first `c` of `a` when `a` has one. */
  lemma IndexOfPrefix(a: string, b: string, c: char)
    requires c in a
    ensures IndexOf(a + b, c) == IndexOf(a, c)
  {
    var i := IndexOf(a, c);
    assert (a + b)[i] == c;
    assert (a + b)[..i] == a[..i];
  }

  /** Input that stops at a line end is read as its own lines followed by those of what comes
      after it. */
  lemma {:induction false} LinesAppend(a: string, b: string)
    requires a == "" || a[|a| - 1] == '\n'
    ensures Lines(a + b) == Lines(a) + Lines(b)
    decreases |a|
  {
    if a == "" {
      assert a + b == b;
    } else {
      assert a[|a| - 1] in a;
      IndexOfPrefix(a, b, '\n');
      var line := ReadLine(a);
      assert ReadLine(a + b) == line;
      var tail := a[|line|..];
      assert (a + b)[|line|..] == tail + b;
      assert tail == "" || tail[|tail| - 1] == '\n';
      LinesAppend(tail, b);
      LinesStep(a + b);
      LinesStep(a);
      AppendAssoc([line], Lines(tail), Lines(b));
    }
  }
}
