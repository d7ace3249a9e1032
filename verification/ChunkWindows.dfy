/** Overlapping chunk windows: how a message's tokens are cut under the model's token budget. */
module ChunkWindows {
  import opened CorpusTables
  import opened Locator

  const MAX_MODEL_TOKENS: int := 1024
  const CHUNK_TARGET_TOKENS: int := 768
  const CHUNK_OVERLAP_TOKENS: int := 96

  datatype Window = Window(start: nat, end: nat)

  /** The content tokens one chunk may hold beside the prompt prefix and the special tokens. */
  function ChunkSize(prefix: nat, special: nat): int {
    var hard := MAX_MODEL_TOKENS - prefix - special;
    if CHUNK_TARGET_TOKENS <= hard then CHUNK_TARGET_TOKENS else hard
  }

  function Min(a: int, b: int): int { if a <= b then a else b }

  /** The windows over n tokens from a start. */
  function WindowsFrom(start: nat, n: nat, size: int): (w: seq<Window>)
    requires size > CHUNK_OVERLAP_TOKENS && start < n
    ensures w != [] && w[0] == Window(start, Min(start + size, n))
    decreases n - start
  {
    var end := Min(start + size, n);
    if end == n then [Window(start, end)] else [Window(start, end)] + WindowsFrom(end - CHUNK_OVERLAP_TOKENS, n, size)
  }

  /** How many further windows are needed once the first one ends short of the last token. */
  function Steps(rest: int, step: int): nat
    requires step > 0
  {
    if rest <= 0 then 0 else (rest + step - 1) / step
  }

  lemma AtLeastOnce(d: int, k: int)
    requires d > 0 && k > 0
    ensures d * k >= d
  {
  }

  lemma Distribute(d: int, p: int, k: int)
    ensures (p + k) * d == d * p + d * k
  {
  }

  lemma DivUnique(y: int, d: int, q: int, r: int)
    requires d > 0 && y == q * d + r && 0 <= r < d
    ensures y / d == q
  {
    var p, s := y / d, y % d;
    DivMod(y, d);
    if p != q { Apart(d, p, s, q, r); }
  }

  lemma DivMod(y: int, d: int)
    requires d > 0
    ensures y == (y / d) * d + y % d && 0 <= y % d < d
  {
  }

  lemma Apart(d: int, p: int, s: int, q: int, r: int)
    requires d > 0 && 0 <= r < d && 0 <= s < d && p != q
    ensures p * d + s != q * d + r
  {
    Distribute(d, p, q - p);
    Distribute(d, q, p - q);
    if p < q { AtLeastOnce(d, q - p); } else { AtLeastOnce(d, p - q); }
  }

  lemma DivPlus(x: int, d: int)
    requires d > 0
    ensures (x + d) / d == x / d + 1
  {
    DivUnique(x + d, d, x / d + 1, x % d);
  }

  lemma StepLess(rest: int, step: int)
    requires step > 0 && rest > 0
    ensures Steps(rest, step) == 1 + Steps(rest - step, step)
  {
    DivPlus(rest - 1, step);
    if rest <= step { DivUnique(rest - 1, step, 0, rest - 1); }
  }

  /** Every window but the last is full, each starts exactly the overlap before the end of the one
      before it and ends beyond it, and the last ends at the last token. */
  predicate Tiles(w: seq<Window>, start: nat, n: nat, size: int) {
    && w != [] && w[0].start == start && w[|w| - 1].end == n
    && (forall i :: 0 <= i < |w| ==> w[i].start < w[i].end <= n && w[i].end - w[i].start <= size)
    && (forall i :: 0 <= i < |w| - 1 ==>
          w[i].end - w[i].start == size && w[i + 1].start == w[i].end - 96 && w[i].end < w[i + 1].end)
  }

  lemma TilesCons(start: nat, n: nat, size: int, rest: seq<Window>)
    requires size > CHUNK_OVERLAP_TOKENS && start + size < n
    requires Tiles(rest, start + size - CHUNK_OVERLAP_TOKENS, n, size)
    requires rest[0].end == Min(rest[0].start + size, n)
    ensures Tiles([Window(start, start + size)] + rest, start, n, size)
  {
    var w := [Window(start, start + size)] + rest;
    assert forall i :: 0 < i < |w| ==> w[i] == rest[i - 1];
  }

  /** The windows tile the tokens, and their number is in closed form. */
  lemma {:induction false} WindowsAre(start: nat, n: nat, size: int)
    requires size > CHUNK_OVERLAP_TOKENS && start < n
    ensures Tiles(WindowsFrom(start, n, size), start, n, size)
    ensures |WindowsFrom(start, n, size)| == 1 + Steps(n - start - size, size - CHUNK_OVERLAP_TOKENS)
    decreases n - start
  {
    hide Steps, Tiles;
    if start + size < n {
      var next := start + size - CHUNK_OVERLAP_TOKENS;
      WindowsAre(next, n, size);
      StepLess(n - start - size, size - CHUNK_OVERLAP_TOKENS);
      TilesCons(start, n, size, WindowsFrom(next, n, size));
    } else {
      OneWindow(start, n, size);
      NoSteps(n - start - size, size - CHUNK_OVERLAP_TOKENS);
    }
  }

  lemma OneWindow(start: nat, n: nat, size: int)
    requires start < n <= start + size
    ensures Tiles([Window(start, n)], start, n, size)
  {
  }

  lemma NoSteps(rest: int, step: int)
    requires rest <= 0 && step > 0
    ensures Steps(rest, step) == 0
  {
  }

  lemma WindowAt(n: nat, size: int, i: nat)
    requires size > CHUNK_OVERLAP_TOKENS && n > 0 && i < |WindowsFrom(0, n, size)|
    ensures var all := WindowsFrom(0, n, size);
            && all[0].start == 0 && all[i].start < all[i].end <= n && all[i].end == Min(all[i].start + size, n)
            && (all[i].end == n <==> i == |all| - 1)
            && (i < |all| - 1 ==> all[i + 1].start == all[i].end - CHUNK_OVERLAP_TOKENS)
  {
    hide WindowsFrom;
    WindowsAre(0, n, size);
  }

  /** The windows cover every token. */
  lemma {:induction false} WindowsCover(start: nat, n: nat, size: int, token: nat) returns (i: nat)
    requires size > CHUNK_OVERLAP_TOKENS && start <= token < n
    ensures var w := WindowsFrom(start, n, size); i < |w| && w[i].start <= token < w[i].end
    decreases n - start
  {
    var end := Min(start + size, n);
    if token < end {
      i := 0;
    } else {
      i := WindowsCover(end - CHUNK_OVERLAP_TOKENS, n, size, token);
      i := i + 1;
    }
  }

  /** No model input exceeds the token limit. */
  lemma InputsFit(prefix: nat, special: nat, n: nat, i: nat)
    requires ChunkSize(prefix, special) > CHUNK_OVERLAP_TOKENS && n > 0
    requires i < |WindowsFrom(0, n, ChunkSize(prefix, special))|
    ensures var w := WindowsFrom(0, n, ChunkSize(prefix, special))[i];
            prefix + special + (w.end - w.start) <= 1024 && w.end - w.start <= 768
    // the budget is the target, or else what the model has left
    ensures ChunkSize(prefix, special) == if prefix + special <= 256 then 768 else 1024 - prefix - special
  {
    WindowsAre(0, n, ChunkSize(prefix, special));
  }

  // ---------------------------------------------------------------- chunking

  datatype Chunk = Chunk(ordinal: nat, window: Window, charStart: nat, charEnd: nat, text: string)

  /** What the tokenizer gives for one text. */
  datatype Encoding = Encoding(tokens: nat, offsets: seq<(int, int)>)

  predicate Blank(s: string) { forall i :: 0 <= i < |s| ==> IsSpace(s[i]) }

  predicate Bounded(text: string, e: Encoding, w: Window)
    requires w.start < w.end <= |e.offsets|
  {
    0 <= e.offsets[w.start].0 < e.offsets[w.end - 1].1 <= |text|
  }

  /** A text the chunker accepts. */
  predicate Chunkable(text: string, e: Encoding, size: int)
    requires size > CHUNK_OVERLAP_TOKENS
  {
    && !Blank(text) && e.tokens == |e.offsets| && e.offsets != []
    && var w := WindowsFrom(0, |e.offsets|, size);
       forall i :: 0 <= i < |w| ==> w[i].start < w[i].end <= |e.offsets| && Bounded(text, e, w[i])
  }

  /** A chunk is the text between its first token's start and its last token's end. */
  predicate Cuts(c: Chunk, text: string, e: Encoding, w: Window, ordinal: nat)
    requires w.start < w.end <= |e.offsets|
  {
    && c.ordinal == ordinal && c.window == w && c.charStart == e.offsets[w.start].0
    && c.charEnd == e.offsets[w.end - 1].1
    && c.charStart < c.charEnd <= |text| && c.text == text[c.charStart..c.charEnd]
  }

  /** The chunks are the windows of the text, cut at their tokens' character bounds. */
  predicate Chunked(chunks: seq<Chunk>, text: string, e: Encoding, size: int)
    requires size > CHUNK_OVERLAP_TOKENS
  {
    && e.offsets != []
    && var w := WindowsFrom(0, |e.offsets|, size);
       |chunks| == |w| && forall k :: 0 <= k < |w| ==>
         w[k].start < w[k].end <= |e.offsets| && Cuts(chunks[k], text, e, w[k], k)
  }

  /** Cut one text; None when the tokenizer's answer is refused. */
  method ChunkPassage(text: string, e: Encoding, size: int) returns (chunks: Option<seq<Chunk>>)
    requires size > CHUNK_OVERLAP_TOKENS
    ensures chunks.Some? <==> Chunkable(text, e, size)
    ensures chunks.Some? ==> Chunked(chunks.value, text, e, size)
  {
    hide WindowsFrom, Blank;
    if Blank(text) || e.tokens != |e.offsets| || e.offsets == [] {
      return None;
    }
    var n := |e.offsets|;
    ghost var all := WindowsFrom(0, n, size);
    forall i: nat | i < |all| ensures all[i].start < all[i].end <= n { WindowAt(n, size, i); }
    WindowAt(n, size, 0);
    var cut: seq<Chunk> := [];
    var start, done := 0, false;
    while !done
      invariant |cut| <= |all| && (done <==> |cut| == |all|) && (!done ==> start == all[|cut|].start)
      invariant forall i :: 0 <= i < |cut| ==> Bounded(text, e, all[i]) && Cuts(cut[i], text, e, all[i], i)
      decreases |all| - |cut|
    {
      var end := Min(start + size, n);
      WindowAt(n, size, |cut|);
      assert all[|cut|] == Window(start, end);
      var charStart, charEnd := e.offsets[start].0, e.offsets[end - 1].1;
      if !(0 <= charStart < charEnd <= |text|) {
        assert !Bounded(text, e, all[|cut|]);
        return None;
      }
      cut := cut + [Chunk(|cut|, Window(start, end), charStart, charEnd, text[charStart..charEnd])];
      if end == n {
        done := true;
      } else {
        start := end - CHUNK_OVERLAP_TOKENS;
      }
    }
    return Some(cut);
  }

  /** Cut every text under one budget; None when the budget cannot hold the overlap or a text or
      the tokenizer's answer for it is refused. */
  method ChunkPassages(texts: seq<string>, tokenize: string -> Encoding, prefix: nat,
      special: nat) returns (results: Option<seq<seq<Chunk>>>)
    ensures results.Some? <==> ChunkSize(prefix, special) > CHUNK_OVERLAP_TOKENS
                               && forall i :: 0 <= i < |texts| ==>
                                    Chunkable(texts[i], tokenize(texts[i]), ChunkSize(prefix, special))
    ensures results.Some? ==> |results.value| == |texts|
    ensures results.Some? ==> forall i :: 0 <= i < |texts| ==>
      Chunked(results.value[i], texts[i], tokenize(texts[i]), ChunkSize(prefix, special))
  {
    hide Chunkable, WindowsFrom, Cuts;
    var size := ChunkSize(prefix, special);
    if size <= CHUNK_OVERLAP_TOKENS {
      return None;
    }
    var all: seq<seq<Chunk>> := [];
    for t := 0 to |texts|
      invariant |all| == t
      invariant forall i :: 0 <= i < t ==>
                  && Chunkable(texts[i], tokenize(texts[i]), size)
                  && Chunked(all[i], texts[i], tokenize(texts[i]), size)
    {
      var chunks := ChunkPassage(texts[t], tokenize(texts[t]), size);
      if chunks.None? {
        return None;
      }
      all := all + [chunks.value];
    }
    return Some(all);
  }
}
