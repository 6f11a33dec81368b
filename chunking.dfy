/** `chunk_text`: cut a text into consecutive slices of a fixed size, the last one possibly
    shorter, the way `[text[i:i+size] for i in range(0, len(text), size)]` does. */
module Chunking {
  import opened Text
  import opened Exceptions

  /** The slices of `text`, in order. */
  function Chunks(text: string, size: nat): seq<string>
    requires size > 0
    decreases |text|
  {
    if text == [] then []
    else if |text| <= size then [text]
    else [text[..size]] + Chunks(text[size..], size)
  }

  /** The text from position `i` on, or "" once `i` has passed its end. */
  function Drop(text: string, i: nat): string {
    if i >= |text| then "" else text[i..]
  }

  /** Joining the chunks in order gives the text back. */
  lemma {:induction false} ChunksConcat(text: string, size: nat)
    requires size > 0
    ensures Concat(Chunks(text, size)) == text
    decreases |text|
  {
    if text != [] && |text| > size {
      ChunksConcat(text[size..], size);
      assert text == text[..size] + text[size..];
      assert (([text[..size]] + Chunks(text[size..], size))[1..]) == Chunks(text[size..], size);
    } else if text != [] {
      assert [text][1..] == [];
      assert text + "" == text;
    }
  }

  /** Every chunk is non-empty and at most `size` long, and all but the last are exactly
      `size` long. */
  lemma {:induction false} ChunksShape(text: string, size: nat)
    requires size > 0
    ensures forall k :: 0 <= k < |Chunks(text, size)| ==> 0 < |Chunks(text, size)[k]| <= size
    ensures forall k :: 0 <= k < |Chunks(text, size)| - 1 ==> |Chunks(text, size)[k]| == size
    decreases |text|
  {
    if text != [] && |text| > size {
      ChunksShape(text[size..], size);
      var tail := Chunks(text[size..], size);
      assert Chunks(text, size) == [text[..size]] + tail;
      assert forall k :: 1 <= k < |Chunks(text, size)| ==> Chunks(text, size)[k] == tail[k - 1];
    }
  }

  /** There are ⌈|text| / size⌉ chunks, so the empty text has none. */
  lemma {:induction false} ChunkCount(text: string, size: nat)
    requires size > 0
    ensures |Chunks(text, size)| == (|text| + size - 1) / size
    decreases |text|
  {
    if text != [] && |text| > size {
      ChunkCount(text[size..], size);
      assert (|text| + size - 1) / size == (|text| - size + size - 1) / size + 1 by {
        DivStep(|text| - size + size - 1, size);
      }
    } else if text != [] {
      assert size <= |text| + size - 1 < 2 * size;
      DivOne(|text| + size - 1, size);
    } else {
      DivZero(size - 1, size);
    }
  }

  lemma DivStep(a: nat, b: nat)
    requires b > 0
    ensures (a + b) / b == a / b + 1
  {
    var q, r := a / b, a % b;
    assert a == q * b + r;
    assert a + b == (q + 1) * b + r;
    DivUnique(a + b, b, q + 1, r);
  }

  /** Division is determined by the quotient-remainder decomposition. */
  lemma DivUnique(n: nat, b: nat, q: nat, r: nat)
    requires b > 0 && r < b && n == q * b + r
    ensures n / b == q
  {
    var q2, r2 := n / b, n % b;
    assert n == q2 * b + r2;
    if q2 < q {
      assert q * b == q2 * b + (q - q2) * b;
      MulAtLeast(q - q2, b);
    } else if q2 > q {
      assert q2 * b == q * b + (q2 - q) * b;
      MulAtLeast(q2 - q, b);
    }
  }

  lemma MulAtLeast(k: nat, b: nat)
    requires k >= 1
    ensures k * b >= b
  {
    assert k * b == b + (k - 1) * b;
  }

  lemma DivOne(a: nat, b: nat)
    requires b > 0 && b <= a < 2 * b
    ensures a / b == 1
  {
  }

  lemma DivZero(a: nat, b: nat)
    requires a < b
    ensures a / b == 0
  {
  }

  /** Chunk `k` is the slice from `k * size` to `(k + 1) * size`, cut at the end of the text. */
  lemma {:induction false} ChunkAt(text: string, size: nat, k: nat)
    requires size > 0 && k < |Chunks(text, size)|
    ensures k * size < |text|
    ensures Chunks(text, size)[k] == text[k * size..Min((k + 1) * size, |text|)]
    decreases k
  {
    if k > 0 {
      var tail := text[size..];
      ChunkAt(tail, size, k - 1);
      assert (k - 1) * size + size == k * size;
      assert k * size + size == (k + 1) * size;
      assert tail[(k - 1) * size..Min(k * size, |tail|)] == text[k * size..Min((k + 1) * size, |text|)];
    }
  }

  /** One turn of the loop: the chunk at position `i` followed by the chunks after it. */
  lemma ChunksFrom(text: string, size: nat, i: nat)
    requires size > 0 && i < |text|
    ensures Chunks(Drop(text, i), size) == [text[i..Min(i + size, |text|)]] + Chunks(Drop(text, i + size), size)
  {
    var t := text[i..];
    assert Drop(text, i) == t && t != [];
    if |t| > size {
      assert t[..size] == text[i..i + size];
      assert t[size..] == text[i + size..] == Drop(text, i + size);
      assert Min(i + size, |text|) == i + size;
    } else {
      assert Min(i + size, |text|) == |text|;
      assert Drop(text, i + size) == "";
      assert Chunks(t, size) == [t];
      assert text[i..|text|] == t;
      assert Chunks("", size) == [];
      assert [t] + [] == [t];
    }
  }

  /** The loop invariant survives one turn. */
  lemma ChunkStep(text: string, size: nat, i: nat, chunks: seq<string>)
    requires size > 0 && i < |text|
    requires chunks + Chunks(Drop(text, i), size) == Chunks(text, size)
    ensures (chunks + [text[i..Min(i + size, |text|)]]) + Chunks(Drop(text, i + size), size) == Chunks(text, size)
  {
    ChunksFrom(text, size, i);
    var c, rest := [text[i..Min(i + size, |text|)]], Chunks(Drop(text, i + size), size);
    assert chunks + (c + rest) == (chunks + c) + rest;
  }

  /** Past the end of the text no chunk is left. */
  lemma ChunksAtEnd(text: string, size: nat, i: nat, chunks: seq<string>)
    requires size > 0 && i >= |text|
    requires chunks + Chunks(Drop(text, i), size) == Chunks(text, size)
    ensures chunks == Chunks(text, size)
  {
    assert Drop(text, i) == "";
    assert Chunks("", size) == [];
    assert chunks + [] == chunks;
  }

  /** `chunk_text(text, size)`: the loop over `range(0, len(text), size)`. A step of zero makes
      `range` raise; a negative step gives an empty range. */
  method ChunkText(text: string, size: int) returns (r: Outcome<seq<string>>)
    ensures size == 0 ==> r == Raised(ValueError("range() arg 3 must not be zero"))
    ensures size < 0 ==> r == Ok([])
    ensures size > 0 ==> r == Ok(Chunks(text, size))
  {
    if size == 0 {
      return Raised(ValueError("range() arg 3 must not be zero"));
    }
    if size < 0 {
      return Ok([]);
    }
    var chunks := ChunkLoop(text, size);
    return Ok(chunks);
  }

  /** The loop of `chunk_text` for a positive step: slices from `i` to `i + size` while `i` is
      below the length. */
  method ChunkLoop(text: string, size: nat) returns (chunks: seq<string>)
    requires size > 0
    ensures chunks == Chunks(text, size)
  {
    chunks := [];
    var i: nat := 0;
    while i < |text|
      invariant chunks + Chunks(Drop(text, i), size) == Chunks(text, size)
      decreases |text| - i
    {
      ChunkStep(text, size, i, chunks);
      chunks := chunks + [text[i..Min(i + size, |text|)]];
      i := i + size;
    }
    ChunksAtEnd(text, size, i, chunks);
  }
}
