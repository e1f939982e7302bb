/**
 The word-window chunker of the ingestion script (`chunk_text`): the text is
 split into whitespace-delimited words, and windows of `size` words, each
 re-joined with single spaces, are emitted starting every
 `max(1, size - overlap)` words until the start passes the last word.

 The model keeps Python's slice semantics, so it is defined for every
 `size` and `overlap`, as `chunk_text` is. Most properties below are stated
 for `size >= 1`; ingestion only ever calls it with the defaults 700/120.
 */
module Chunker {
  import opened Text

  /** The defaults of `chunk_text`, the only values ingestion uses. */
  const DefaultChunkSize: int := 700
  const DefaultOverlap: int := 120

  function Min(a: int, b: int): int {
    if a <= b then a else b
  }

  /** Python's normalisation of one bound of `s[lo:hi]` against `len(s) == n`:
      a negative bound counts from the end, and the result is clamped to
      `[0, n]`. */
  function SliceBound(x: int, n: nat): (b: nat)
    ensures b <= n
    ensures 0 <= x <= n ==> b == x
    ensures x > n ==> b == n
  {
    if x < 0 then (if x + n < 0 then 0 else x + n)
    else if x > n then n
    else x
  }

  /** Python's `s[lo:hi]`. */
  function PySlice<T>(s: seq<T>, lo: int, hi: int): seq<T>
  {
    var a := SliceBound(lo, |s|);
    var b := SliceBound(hi, |s|);
    if a < b then s[a..b] else []
  }

  /** `s[lo:hi]` holds the elements from the normalised lower bound up to
      the normalised upper bound, and none when those cross; element `i` is
      element `i` past the lower bound, so a slice keeps the order and skips
      nothing in between. */
  lemma {:induction false} PySliceAt<T>(s: seq<T>, lo: int, hi: int)
    ensures SliceBound(lo, |s|) < SliceBound(hi, |s|) ==>
      |PySlice(s, lo, hi)| == SliceBound(hi, |s|) - SliceBound(lo, |s|)
    ensures SliceBound(hi, |s|) <= SliceBound(lo, |s|) ==> PySlice(s, lo, hi) == []
    ensures forall i :: 0 <= i < |PySlice(s, lo, hi)| ==>
      SliceBound(lo, |s|) + i < |s| && PySlice(s, lo, hi)[i] == s[SliceBound(lo, |s|) + i]
  {
  }

  /** `max(1, size - overlap)`: how far the cursor advances per chunk. It is
      at least 1 whatever the arguments, which is what makes the loop end. */
  function Step(size: int, overlap: int): (step: nat)
    ensures step >= 1
    ensures size - overlap >= 1 ==> step == size - overlap
    ensures size >= 1 && overlap >= 0 ==> step <= size
  {
    if size - overlap > 1 then size - overlap else 1
  }

  /** One iteration's chunk: `" ".join(words[i:i + size])`. */
  function Window(words: seq<string>, i: int, size: int): string {
    Join(" ", PySlice(words, i, i + size))
  }

  /** The chunks the `while` loop emits once its cursor is at `i`: one
      window per iteration, the cursor advancing by `step` each time, until
      the cursor reaches or passes the word count. */
  function ChunksFrom(words: seq<string>, i: nat, size: int, step: nat): seq<string>
    requires step >= 1
    decreases |words| - i
  {
    if i < |words| then
      [Window(words, i, size)] + ChunksFrom(words, i + step, size, step)
    else
      []
  }

  /** `chunk_text(text, size, overlap)`. */
  function ChunkText(text: string, size: int, overlap: int): (chunks: seq<string>)
    ensures |chunks| == 0 <==> Blank(text)
  {
    ChunksFrom(Split(text), 0, size, Step(size, overlap))
  }

  /** How far the cursor has moved after `k` iterations. */
  function Advance(step: nat, k: nat): nat {
    if k == 0 then 0 else Advance(step, k - 1) + step
  }

  /** The word index at which chunk `k` starts. */
  function Start(size: int, overlap: int, k: nat): nat {
    Advance(Step(size, overlap), k)
  }

  /** The index one past the last word of chunk `k` of a text of `n` words:
      `size` words on from its start, or the end of the text. */
  function End(size: int, overlap: int, k: nat, n: nat): int {
    Min(Start(size, overlap, k) + size, n)
  }

  /** After `k` iterations the cursor is at `k * step`. */
  lemma {:induction false} AdvanceIsProduct(step: nat, k: nat)
    ensures Advance(step, k) == k * step
  {
    if k > 0 {
      AdvanceIsProduct(step, k - 1);
      assert (k - 1) * step + step == k * step;
    }
  }

  /** Chunk `k` starts at word `k * max(1, size - overlap)`. */
  lemma {:induction false} StartIsMultiple(size: int, overlap: int, k: nat)
    ensures Start(size, overlap, k) == k * Step(size, overlap)
  {
    AdvanceIsProduct(Step(size, overlap), k);
  }

  /** The loop runs while its cursor is inside the list: the last window
      starts before the end, and one more step reaches or passes it. */
  lemma {:induction false} ChunksFromCount(words: seq<string>, i: nat, size: int, step: nat)
    requires step >= 1
    ensures var n := |ChunksFrom(words, i, size, step)|;
            && i + Advance(step, n) >= |words|
            && (n > 0 ==> i + Advance(step, n - 1) < |words|)
    decreases |words| - i
  {
    if i < |words| {
      var n := |ChunksFrom(words, i, size, step)|;
      ChunksFromCount(words, i + step, size, step);
      AdvanceFirst(step, n);
      if n > 1 {
        AdvanceFirst(step, n - 1);
      }
    }
  }

  /** Advancing `k` times is one step followed by `k - 1` more. */
  lemma {:induction false} AdvanceFirst(step: nat, k: nat)
    requires k >= 1
    ensures Advance(step, k) == step + Advance(step, k - 1)
  {
  }

  /** Chunk `k` of the loop started at `i` is the window at `i + Advance(k)`. */
  lemma {:induction false} ChunksFromAt(words: seq<string>, i: nat, size: int, step: nat, k: nat)
    requires step >= 1
    requires k < |ChunksFrom(words, i, size, step)|
    ensures i + Advance(step, k) < |words|
    ensures ChunksFrom(words, i, size, step)[k] == Window(words, i + Advance(step, k), size)
    decreases k
  {
    var all := ChunksFrom(words, i, size, step);
    assert i < |words|;
    if k > 0 {
      var rest := ChunksFrom(words, i + step, size, step);
      assert all == [Window(words, i, size)] + rest;
      assert all[k] == rest[k - 1];
      ChunksFromAt(words, i + step, size, step, k - 1);
      assert i + Advance(step, k) == (i + step) + Advance(step, k - 1) by {
        AdvanceFirst(step, k);
      }
    }
  }

  /** Chunk `k` is the window of `size` words starting at word `Start(k)`,
      re-joined with single spaces; its start lies inside the text. */
  lemma {:induction false} ChunkAt(text: string, size: int, overlap: int, k: nat)
    requires k < |ChunkText(text, size, overlap)|
    ensures Start(size, overlap, k) < |Split(text)|
    ensures ChunkText(text, size, overlap)[k] == Window(Split(text), Start(size, overlap, k), size)
  {
    var words := Split(text);
    var step := Step(size, overlap);
    assert ChunkText(text, size, overlap) == ChunksFrom(words, 0, size, step);
    ChunksFromAt(words, 0, size, step, k);
    assert 0 + Advance(step, k) == Start(size, overlap, k);
  }

  /** The loop stops at the first start at or past the last word: the last
      chunk starts inside the text, and the next start would not. */
  lemma {:induction false} ChunkBounds(text: string, size: int, overlap: int)
    ensures var n := |ChunkText(text, size, overlap)|;
            && Start(size, overlap, n) >= |Split(text)|
            && (n > 0 ==> Start(size, overlap, n - 1) < |Split(text)|)
  {
    assert ChunkText(text, size, overlap) == ChunksFrom(Split(text), 0, size, Step(size, overlap));
    ChunksFromCount(Split(text), 0, size, Step(size, overlap));
  }

  /** Multiplying by a positive number keeps strict order, both ways. */
  lemma {:induction false} MulStrict(a: nat, b: nat, d: nat)
    requires d >= 1
    ensures a < b <==> a * d < b * d
  {
  }

  /** Floor division is determined by the bracket `q * d <= m < q * d + d`. */
  lemma {:induction false} DivUnique(m: nat, d: nat, q: nat)
    requires d >= 1
    requires q * d <= m < q * d + d
    ensures m / d == q
  {
    var q' := m / d;
    assert q' * d <= m < q' * d + d;
    assert (q + 1) * d == q * d + d && (q' + 1) * d == q' * d + d;
    MulStrict(q, q' + 1, d);
    MulStrict(q', q + 1, d);
  }

  /** The number of chunks is the word count divided by the step, rounded
      up: `ceil(n / step)`. */
  lemma {:induction false} ChunkCount(text: string, size: int, overlap: int)
    ensures |ChunkText(text, size, overlap)| ==
      (|Split(text)| + Step(size, overlap) - 1) / Step(size, overlap)
  {
    var n := |ChunkText(text, size, overlap)|;
    var step := Step(size, overlap);
    var words := |Split(text)|;
    ChunkBounds(text, size, overlap);
    StartIsMultiple(size, overlap, n);
    if n == 0 {
      DivUnique(words + step - 1, step, 0);
    } else {
      StartIsMultiple(size, overlap, n - 1);
      assert (n - 1) * step + step == n * step;
      DivUnique(words + step - 1, step, n);
    }
  }

  /** With a positive size, the Python slice of a window that starts inside
      the list is the plain sub-sequence up to the window end or the list end. */
  lemma {:induction false} SliceWindow<T>(s: seq<T>, start: nat, size: int)
    requires size >= 1 && start < |s|
    ensures PySlice(s, start, start + size) == s[start..Min(start + size, |s|)]
  {
  }

  /** A window of words, joined with spaces, splits back into that window. */
  lemma {:induction false} ResplitWindow(words: seq<string>, start: nat, size: int)
    requires AllWords(words)
    requires size >= 1 && start < |words|
    ensures Split(Window(words, start, size)) == words[start..Min(start + size, |words|)]
  {
    SliceWindow(words, start, size);
    WordsSlice(words, start, Min(start + size, |words|));
    SplitJoinSpace(words[start..Min(start + size, |words|)]);
  }

  /** A run of words taken from a list of words is a list of words. */
  lemma {:induction false} WordsSlice(words: seq<string>, a: nat, b: nat)
    requires AllWords(words) && a <= b <= |words|
    ensures AllWords(words[a..b])
  {
    assert forall j :: 0 <= j < b - a ==> words[a..b][j] == words[a + j];
  }


  /** Chunk `k` holds exactly the words from `Start(k)` up to `Start(k) + size`
      or the end of the text, whichever comes first: between 1 and `size`
      words, re-splitting to exactly that window. */
  lemma {:induction false} ChunkWords(text: string, size: int, overlap: int, k: nat)
    requires size >= 1
    requires k < |ChunkText(text, size, overlap)|
    ensures Start(size, overlap, k) < End(size, overlap, k, |Split(text)|) <= |Split(text)|
    ensures Split(ChunkText(text, size, overlap)[k]) ==
      Split(text)[Start(size, overlap, k)..End(size, overlap, k, |Split(text)|)]
    ensures 1 <= |Split(ChunkText(text, size, overlap)[k])| <= size
  {
    var words := Split(text);
    var start := Start(size, overlap, k);
    var chunk := ChunkText(text, size, overlap)[k];
    ChunkAt(text, size, overlap, k);
    assert Split(chunk) == words[start..Min(start + size, |words|)] by {
      ResplitWindow(words, start, size);
    }
  }

  /** Word `j` of the text sits in chunk `k`, at its own offset from the
      chunk's first word. */
  ghost predicate Covers(text: string, size: int, overlap: int, k: nat, j: nat)
  {
    var chunks := ChunkText(text, size, overlap);
    var start := Start(size, overlap, k);
    && k < |chunks|
    && j < |Split(text)|
    && start <= j < start + |Split(chunks[k])|
    && Split(chunks[k])[j - start] == Split(text)[j]
  }

  /** When the window never advances past its own end (`overlap >= 0`),
      every word of the text lands, at its own position, in some chunk. */
  lemma {:induction false} EveryWordCovered(text: string, size: int, overlap: int, j: nat)
    requires size >= 1 && overlap >= 0
    requires j < |Split(text)|
    ensures exists k :: Covers(text, size, overlap, k, j)
  {
    var k := ChunkIndex(text, size, overlap, j);
    assert Covers(text, size, overlap, k, j) by {
      var words := Split(text);
      ChunkWords(text, size, overlap, k);
      SliceAt(words, Split(ChunkText(text, size, overlap)[k]),
              Start(size, overlap, k), End(size, overlap, k, |words|), j);
    }
  }

  /** Position `j` of `s` is position `j - a` of the slice `x == s[a..e]`. */
  lemma {:induction false} SliceAt<T>(s: seq<T>, x: seq<T>, a: nat, e: int, j: nat)
    requires a <= j < e <= |s|
    requires x == s[a..e]
    ensures j < a + |x| && x[j - a] == s[j]
  {
  }

  /** The chunk whose start is the last one at or before word `j`. */
  lemma {:induction false} ChunkIndex(text: string, size: int, overlap: int, j: nat) returns (k: nat)
    requires j < |Split(text)|
    ensures k < |ChunkText(text, size, overlap)|
    ensures Start(size, overlap, k) <= j < Start(size, overlap, k) + Step(size, overlap)
  {
    var step := Step(size, overlap);
    var n := |ChunkText(text, size, overlap)|;
    ChunkBounds(text, size, overlap);
    StartIsMultiple(size, overlap, n);
    k := WindowIndex(j, step, n);
    StartIsMultiple(size, overlap, k);
  }

  /** The window a position `j` falls into when windows of width `step` are
      laid end to end: the one starting at `(j / step) * step`. */
  lemma {:induction false} WindowIndex(j: nat, step: nat, count: nat) returns (k: nat)
    requires step >= 1 && j < count * step
    ensures k < count
    ensures k * step <= j < k * step + step
  {
    k := j / step;
    assert j == k * step + j % step;
    MulStrict(k, count, step);
  }

  /** With `overlap >= 0` the last chunk runs to the final word. */
  lemma {:induction false} LastChunkReachesEnd(text: string, size: int, overlap: int)
    requires size >= 1 && overlap >= 0
    requires !Blank(text)
    ensures |ChunkText(text, size, overlap)| > 0
    ensures var last := |ChunkText(text, size, overlap)| - 1;
            && Start(size, overlap, last) < |Split(text)|
            && Split(ChunkText(text, size, overlap)[last]) == Split(text)[Start(size, overlap, last)..]
  {
    var last := |ChunkText(text, size, overlap)| - 1;
    var n := |Split(text)|;
    ChunkBounds(text, size, overlap);
    assert End(size, overlap, last, n) == n by {
      AdvanceFirst(Step(size, overlap), last + 1);
    }
    ChunkWords(text, size, overlap, last);
    SliceToEnd(Split(text), Split(ChunkText(text, size, overlap)[last]),
               Start(size, overlap, last), End(size, overlap, last, n));
  }

  /** A slice that ends at the length of the sequence is a suffix. */
  lemma {:induction false} SliceToEnd<T>(s: seq<T>, x: seq<T>, a: nat, e: int)
    requires a <= e == |s|
    requires x == s[a..e]
    ensures x == s[a..]
  {
  }

  /** Two consecutive chunks, the first of them full, share exactly
      `overlap` words: the tail of the first is the head of the second. */
  lemma {:induction false} ConsecutiveChunksOverlap(text: string, size: int, overlap: int, k: nat)
    requires 0 <= overlap < size
    requires k + 1 < |ChunkText(text, size, overlap)|
    requires Start(size, overlap, k) + size <= |Split(text)|
    ensures |Split(ChunkText(text, size, overlap)[k])| == size
    ensures |Split(ChunkText(text, size, overlap)[k + 1])| >= overlap
    ensures Split(ChunkText(text, size, overlap)[k])[size - overlap..] ==
            Split(ChunkText(text, size, overlap)[k + 1])[..overlap]
  {
    StartsApart(size, overlap, k);
    ChunkWords(text, size, overlap, k);
    ChunkWords(text, size, overlap, k + 1);
    SharedSlice(Split(text), Split(ChunkText(text, size, overlap)[k]), Split(ChunkText(text, size, overlap)[k + 1]),
                Start(size, overlap, k), End(size, overlap, k, |Split(text)|),
                Start(size, overlap, k + 1), End(size, overlap, k + 1, |Split(text)|),
                size - overlap, overlap);
  }

  /** Consecutive chunks start `size - overlap` words apart when that is
      positive. */
  lemma {:induction false} StartsApart(size: int, overlap: int, k: nat)
    requires overlap < size
    ensures Start(size, overlap, k + 1) == Start(size, overlap, k) + (size - overlap)
  {
  }

  /** If `x` is `s[a..e1]` and `y` is `s[b..e2]` with `b == a + d` and `y`
      reaching at least `o` words past the end of `x`'s overlap, the tail of
      `x` from `d` on is the head of `y`. */
  lemma {:induction false} SharedSlice<T>(s: seq<T>, x: seq<T>, y: seq<T>, a: nat, e1: nat, b: nat, e2: nat, d: nat, o: nat)
    requires b == a + d && e1 == b + o && e1 <= e2 <= |s|
    requires x == s[a..e1] && y == s[b..e2]
    ensures |x| == d + o && |y| >= o
    ensures x[d..] == y[..o]
  {
    assert x[d..] == s[b..e1];
  }

  /** The default configuration on a 1500-word text: three chunks, starting
      at words 0, 580 and 1160, the last one holding the final 340 words. */
  lemma {:induction false} DefaultsOn1500Words(text: string)
    requires |Split(text)| == 1500
    ensures |ChunkText(text, DefaultChunkSize, DefaultOverlap)| == 3
    ensures Split(ChunkText(text, DefaultChunkSize, DefaultOverlap)[0]) == Split(text)[0..700]
    ensures Split(ChunkText(text, DefaultChunkSize, DefaultOverlap)[1]) == Split(text)[580..1280]
    ensures Split(ChunkText(text, DefaultChunkSize, DefaultOverlap)[2]) == Split(text)[1160..1500]
  {
    ChunkCount(text, DefaultChunkSize, DefaultOverlap);
    DefaultStarts();
    ChunkWords(text, DefaultChunkSize, DefaultOverlap, 0);
    ChunkWords(text, DefaultChunkSize, DefaultOverlap, 1);
    ChunkWords(text, DefaultChunkSize, DefaultOverlap, 2);
  }

  /** With the defaults the cursor moves 580 words per chunk. */
  lemma {:induction false} DefaultStarts()
    ensures Step(DefaultChunkSize, DefaultOverlap) == 580
    ensures Start(DefaultChunkSize, DefaultOverlap, 0) == 0
    ensures Start(DefaultChunkSize, DefaultOverlap, 1) == 580
    ensures Start(DefaultChunkSize, DefaultOverlap, 2) == 1160
  {
  }

  /** `chunk_text` does not reject `size == 0`: it emits one empty string
      for every word (with `overlap == 0`, a step of 1). */
  lemma {:induction false} ZeroSizeEmitsEmptyChunks(text: string)
    ensures |ChunkText(text, 0, 0)| == |Split(text)|
    ensures forall k :: 0 <= k < |ChunkText(text, 0, 0)| ==> ChunkText(text, 0, 0)[k] == ""
  {
    var chunks := ChunkText(text, 0, 0);
    ChunkCount(text, 0, 0);
    forall k | 0 <= k < |chunks|
      ensures chunks[k] == ""
    {
      ChunkAt(text, 0, 0, k);
    }
  }
}
