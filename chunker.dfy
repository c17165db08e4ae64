/**
 * `chunk_text`: the text is cut into rough pieces by a character splitter, each piece is
 * tokenized, a piece that fits becomes one chunk, and a piece that does not is cut into token
 * windows of `chunk_tokens` tokens whose starts are `chunk_tokens - overlap` apart.
 *
 * The splitter (LangChain's `RecursiveCharacterTextSplitter` with its fixed settings), the
 * tokenizer (tiktoken) and the id generator (`uuid4`) are parameters.
 */
module Chunker {
  import opened PyStr
  import opened Seqs

  type Token = int

  /** The tokenizer's two directions; `decode` is not assumed to invert `encode`. */
  datatype Tokenizer = Tokenizer(encode: string -> seq<Token>, decode: seq<Token> -> string)

  /** One record of the list `chunk_text` returns. */
  datatype Chunk = Chunk(id: string, text: string, source: string, title: string, tokens: nat)

  /** A chunk without its id, source and title: its text and its token count. */
  datatype Body = Body(text: string, tokens: nat)

  /** The default `chunk_tokens` and `overlap`. */
  const DefaultChunkTokens: nat := 500
  const DefaultOverlap: int := 50

  function Min(a: int, b: int): int {
    if a <= b then a else b
  }

  // ---------------------------------------------------------------------------------------------
  // Token windows

  /**
   * The windows `tokens[start:start + size]` for `start` = `from`, `from + step`, ... while
   * `start < len(tokens)`. A Python slice stops at the end of the list, so the last window may
   * be short.
   */
  function WindowsFrom(ts: seq<Token>, size: nat, step: nat, from: nat): (ws: seq<seq<Token>>)
    requires step > 0
    ensures forall k :: 0 <= k < |ws| ==> |ws[k]| <= size
    decreases |ts| - from
  {
    if from >= |ts| then []
    else [ts[from..Min(from + size, |ts|)]] + WindowsFrom(ts, size, step, from + step)
  }

  /** The windows of an oversized piece: the loop of `chunk_text` starts at 0. */
  function Windows(ts: seq<Token>, size: nat, step: nat): seq<seq<Token>>
    requires step > 0
  {
    WindowsFrom(ts, size, step, 0)
  }

  /** The `k`-th window starts at `from + k * step` and runs for `size` tokens or to the end. */
  lemma {:induction false} WindowsFromAt(ts: seq<Token>, size: nat, step: nat, from: nat, k: nat)
    requires step > 0 && k < |WindowsFrom(ts, size, step, from)|
    ensures from + k * step < |ts|
    ensures WindowsFrom(ts, size, step, from)[k] == ts[from + k * step..Min(from + k * step + size, |ts|)]
    decreases k
  {
    if k > 0 {
      WindowsFromAt(ts, size, step, from + step, k - 1);
      assert from + step + (k - 1) * step == from + k * step;
    }
  }

  /** There are as many windows as it takes steps to pass the end: `k` windows with
      `(k - 1) * step < n - from <= k * step`. */
  lemma {:induction false} WindowsFromCount(ts: seq<Token>, size: nat, step: nat, from: nat)
    requires step > 0
    ensures from >= |ts| ==> |WindowsFrom(ts, size, step, from)| == 0
    ensures from < |ts| ==>
      var k := |WindowsFrom(ts, size, step, from)|;
      (k - 1) * step < |ts| - from <= k * step
    decreases |ts| - from
  {
    if from < |ts| {
      WindowsFromCount(ts, size, step, from + step);
      var m := |WindowsFrom(ts, size, step, from + step)|;
      assert (m + 1) * step == m * step + step;
    }
  }

  /** `k` windows cover `n > 0` tokens in steps of `step` exactly when `k` is `n / step` rounded up. */
  lemma CeilDiv(n: int, step: int, k: int)
    requires step > 0 && (k - 1) * step < n <= k * step
    ensures k == (n + step - 1) / step
  {
    var q, r := (n + step - 1) / step, (n + step - 1) % step;
    assert n + step - 1 == q * step + r && 0 <= r < step;
    if q < k {
      MulMonotone(q, k - 1, step);
    } else if q > k {
      MulMonotone(k + 1, q, step);
    }
  }

  lemma MulMonotone(a: int, b: int, c: int)
    requires a <= b && 0 <= c
    ensures a * c <= b * c
  {
    assert b * c - a * c == (b - a) * c;
  }

  /** An oversized piece of `n` tokens yields `ceil(n / step)` windows, the `k`-th of which starts
      at `k * step` and holds `min(size, n - k * step)` tokens. */
  lemma WindowsShape(ts: seq<Token>, size: nat, step: nat)
    requires step > 0 && |ts| > 0
    ensures |Windows(ts, size, step)| == (|ts| + step - 1) / step
    ensures forall k :: 0 <= k < |Windows(ts, size, step)| ==>
      k * step < |ts| && Windows(ts, size, step)[k] == ts[k * step..Min(k * step + size, |ts|)]
  {
    WindowsFromCount(ts, size, step, 0);
    CeilDiv(|ts|, step, |Windows(ts, size, step)|);
    forall k | 0 <= k < |Windows(ts, size, step)|
      ensures k * step < |ts| && Windows(ts, size, step)[k] == ts[k * step..Min(k * step + size, |ts|)]
    {
      WindowsFromAt(ts, size, step, 0, k);
    }
  }

  /** The loop of `chunk_text` runs while the next start is before the end: the `k`-th window
      exists exactly when `k * step < n`. */
  lemma WindowExists(ts: seq<Token>, size: nat, step: nat, k: nat)
    requires step > 0
    ensures k < |Windows(ts, size, step)| <==> k * step < |ts|
  {
    WindowsFromCount(ts, size, step, 0);
    var m := |Windows(ts, size, step)|;
    if k < m {
      WindowsFromAt(ts, size, step, 0, k);
    } else if |ts| > 0 {
      MulMonotone(m, k, step);
    }
  }

  /** With a non-negative overlap (`step <= size`) every token lies in some window. */
  lemma WindowsCover(ts: seq<Token>, size: nat, step: nat, t: nat) returns (k: nat)
    requires 0 < step <= size && t < |ts|
    ensures k < |Windows(ts, size, step)|
    ensures k * step <= t < k * step + |Windows(ts, size, step)[k]|
  {
    k := t / step;
    DivBounds(t, step);
    WindowExists(ts, size, step, k);
    WindowsFromAt(ts, size, step, 0, k);
    var s := k * step;
    assert |Windows(ts, size, step)[k]| == Min(s + size, |ts|) - s;
  }

  lemma DivBounds(t: nat, step: nat)
    requires step > 0
    ensures (t / step) * step <= t < (t / step) * step + step
  {
    var q, r := t / step, t % step;
    assert t == q * step + r && 0 <= r < step;
  }

  /** Neighbouring windows share the tokens past the first `step` of the earlier one: the last
      `min(size - step, n - (k + 1) * step)` tokens of window `k` open window `k + 1`. */
  lemma WindowsOverlap(ts: seq<Token>, size: nat, step: nat, k: nat)
    requires 0 < step <= size && k + 1 < |Windows(ts, size, step)|
    ensures step <= |Windows(ts, size, step)[k]|
    ensures |Windows(ts, size, step)[k]| - step <= |Windows(ts, size, step)[k + 1]|
    ensures |Windows(ts, size, step)[k]| - step == Min(size - step, |ts| - (k + 1) * step)
    ensures Windows(ts, size, step)[k][step..] == Windows(ts, size, step)[k + 1][..|Windows(ts, size, step)[k]| - step]
  {
    var s := WindowPair(ts, size, step, k);
    OverlapSlices(ts, s, step, size);
  }

  /** Windows `k` and `k + 1` are the slices at `s = k * step` and at `s + step`. */
  lemma WindowPair(ts: seq<Token>, size: nat, step: nat, k: nat) returns (s: nat)
    requires 0 < step && k + 1 < |Windows(ts, size, step)|
    ensures s == k * step && s + step == (k + 1) * step && s + step < |ts|
    ensures Windows(ts, size, step)[k] == ts[s..Min(s + size, |ts|)]
    ensures Windows(ts, size, step)[k + 1] == ts[s + step..Min(s + step + size, |ts|)]
  {
    MulSucc(k, step);
    s := k * step;
    WindowsFromAt(ts, size, step, 0, k);
    WindowsFromAt(ts, size, step, 0, k + 1);
  }

  lemma MulSucc(k: nat, step: nat)
    ensures 0 <= k * step && (k + 1) * step == k * step + step
  {
  }

  /** The slices taken at `s` and at `s + step` overlap in `ts[s + step:min(s + size, n)]`. */
  lemma OverlapSlices(ts: seq<Token>, s: nat, step: nat, size: nat)
    requires 0 < step <= size && s + step < |ts|
    ensures var a, b := ts[s..Min(s + size, |ts|)], ts[s + step..Min(s + step + size, |ts|)];
      && step <= |a| && |a| - step <= |b|
      && a[step..] == b[..|a| - step]
  {
    var a, b := ts[s..Min(s + size, |ts|)], ts[s + step..Min(s + step + size, |ts|)];
    assert a[step..] == ts[s + step..Min(s + size, |ts|)];
    assert b[..|a| - step] == ts[s + step..Min(s + size, |ts|)];
  }

  /** With the defaults, a piece of 950 tokens gives three windows, starting at 0, 450 and 900;
      the third lies wholly inside the second. */
  lemma RedundantTailWindow(ts: seq<Token>)
    requires |ts| == 950
    ensures var ws := Windows(ts, DefaultChunkTokens, DefaultChunkTokens - DefaultOverlap);
      |ws| == 3 && |ws[1]| == 500 && ws[2] == ws[1][450..]
  {
    WindowsShape(ts, 500, 450);
    assert (950 + 450 - 1) / 450 == 3;
    assert Windows(ts, 500, 450)[1] == ts[450..950];
    assert Windows(ts, 500, 450)[2] == ts[900..950];
  }

  // ---------------------------------------------------------------------------------------------
  // Chunks

  /** The chunks windows become, in order: each window's decoded, stripped text and its token
      count. */
  function WindowBodies(ws: seq<seq<Token>>, decode: seq<Token> -> string): (bs: seq<Body>)
    ensures |bs| == |ws|
    ensures forall j :: 0 <= j < |ws| ==> bs[j].tokens == |ws[j]|
    ensures forall j :: 0 <= j < |ws| ==> bs[j].text == Strip(decode(ws[j]))
  {
    if ws == [] then []
    else
      var w := ws[|ws| - 1];
      WindowBodies(ws[..|ws| - 1], decode) + [Body(Strip(decode(w)), |w|)]
  }

  /** The chunk bodies one rough piece yields. */
  function PieceBodies(piece: string, tok: Tokenizer, size: nat, step: nat): (bs: seq<Body>)
    requires step > 0
    ensures forall j :: 0 <= j < |bs| ==> bs[j].tokens <= size
  {
    var ts := tok.encode(piece);
    if |ts| <= size then [Body(Strip(piece), |ts|)]
    else WindowBodies(Windows(ts, size, step), tok.decode)
  }

  /** What one rough piece yields: a piece that fits is one body, its stripped text with its
      token count; body `k` of an oversized piece is the stripped decoding of the window at
      `k * step`. */
  lemma PieceBodiesAt(piece: string, tok: Tokenizer, size: nat, step: nat)
    requires step > 0
    ensures var ts := tok.encode(piece);
      |ts| <= size ==> PieceBodies(piece, tok, size, step) == [Body(Strip(piece), |ts|)]
    ensures var ts, bs := tok.encode(piece), PieceBodies(piece, tok, size, step);
      |ts| > size ==>
        && |bs| == (|ts| + step - 1) / step
        && forall k :: 0 <= k < |bs| ==>
             && 0 <= k * step < |ts|
             && var w := ts[k * step..Min(k * step + size, |ts|)];
                bs[k] == Body(Strip(tok.decode(w)), |w|)
  {
    var ts := tok.encode(piece);
    if |ts| > size {
      WindowsShape(ts, size, step);
    }
  }

  /** The chunk bodies of a list of rough pieces, in order. */
  function AllBodies(pieces: seq<string>, tok: Tokenizer, size: nat, step: nat): (bs: seq<Body>)
    requires step > 0
    ensures forall j :: 0 <= j < |bs| ==> bs[j].tokens <= size
  {
    if pieces == [] then []
    else AllBodies(pieces[..|pieces| - 1], tok, size, step) + PieceBodies(pieces[|pieces| - 1], tok, size, step)
  }

  /** Bodies labelled as chunks: the `i`-th carries the `i`-th id drawn and the given source and
      title. */
  function Label(bs: seq<Body>, source: string, title: string, newId: nat -> string): (cs: seq<Chunk>)
    ensures |cs| == |bs|
  {
    if bs == [] then []
    else
      var b := bs[|bs| - 1];
      Label(bs[..|bs| - 1], source, title, newId) + [Chunk(newId(|bs| - 1), b.text, source, title, b.tokens)]
  }

  /** What `chunk_text` returns. */
  function Chunks(text: string, source: string, title: string, chunkTokens: nat, overlap: int,
                  tok: Tokenizer, split: string -> seq<string>, newId: nat -> string): (r: seq<Chunk>)
    requires overlap < chunkTokens
    ensures var bs := AllBodies(split(text), tok, chunkTokens, chunkTokens - overlap);
      && |r| == |bs|
      && forall i :: 0 <= i < |r| ==> r[i] == Chunk(newId(i), bs[i].text, source, title, bs[i].tokens)
  {
    var bs := AllBodies(split(text), tok, chunkTokens, chunkTokens - overlap);
    assert forall i :: 0 <= i < |bs| ==>
      Label(bs, source, title, newId)[i] == Chunk(newId(i), bs[i].text, source, title, bs[i].tokens) by {
      forall i | 0 <= i < |bs| {
        LabelAt(bs, source, title, newId, i);
      }
    }
    Label(bs, source, title, newId)
  }

  /**
   * `chunk_text(text, source, title, chunk_tokens, overlap)`. The source loops forever when a
   * piece is oversized and `overlap >= chunk_tokens`, hence the precondition.
   */
  method ChunkText(text: string, source: string, title: string, chunkTokens: nat, overlap: int,
                   tok: Tokenizer, split: string -> seq<string>, newId: nat -> string)
    returns (chunks: seq<Chunk>)
    requires overlap < chunkTokens
    ensures chunks == Chunks(text, source, title, chunkTokens, overlap, tok, split, newId)
  {
    var step: nat := chunkTokens - overlap;
    var roughs := split(text);
    chunks := [];
    ghost var bodies: seq<Body> := [];
    for i := 0 to |roughs|
      invariant bodies == AllBodies(roughs[..i], tok, chunkTokens, step)
      invariant chunks == Label(bodies, source, title, newId)
    {
      var ch := roughs[i];
      AllBodiesSnoc(roughs, i, tok, chunkTokens, step);
      var tokens := tok.encode(ch);
      if |tokens| <= chunkTokens {
        chunks := chunks + [Chunk(newId(|chunks|), Strip(ch), source, title, |tokens|)];
        LabelSnoc(bodies, Body(Strip(ch), |tokens|), source, title, newId);
        bodies := bodies + [Body(Strip(ch), |tokens|)];
      } else {
        chunks := AppendWindows(chunks, bodies, tokens, chunkTokens, step, source, title, tok.decode, newId);
        bodies := bodies + WindowBodies(Windows(tokens, chunkTokens, step), tok.decode);
      }
    }
    TakeAll(roughs);
  }

  /** The `else` branch of `chunk_text`: the `while start < len(tokens)` loop, which appends one
      chunk per window of an oversized piece, `start` advancing by `step`. */
  method AppendWindows(chunks0: seq<Chunk>, ghost bodies0: seq<Body>, tokens: seq<Token>,
                       chunkTokens: nat, step: nat, source: string, title: string,
                       decode: seq<Token> -> string, newId: nat -> string)
    returns (chunks: seq<Chunk>)
    requires step > 0 && chunks0 == Label(bodies0, source, title, newId)
    ensures chunks == Label(bodies0 + WindowBodies(Windows(tokens, chunkTokens, step), decode), source, title, newId)
  {
    ghost var ws := Windows(tokens, chunkTokens, step);
    ghost var k: nat := 0;
    chunks := chunks0;
    assert WindowBodies(ws[..0], decode) == [];
    AppendNil(bodies0);
    var start := 0;
    while start < |tokens|
      invariant start == k * step && k <= |ws|
      invariant chunks == Label(bodies0 + WindowBodies(ws[..k], decode), source, title, newId)
      decreases |tokens| - start
    {
      var window := tokens[start..Min(start + chunkTokens, |tokens|)];
      WindowNext(tokens, chunkTokens, step, k, start);
      ChunkStep(bodies0, ws, k, source, title, decode, newId);
      chunks := chunks + [Chunk(newId(|chunks|), Strip(decode(window)), source, title, |window|)];
      k := k + 1;
      start := start + step;
    }
    WindowsDone(tokens, chunkTokens, step, k);
  }

  /** One turn of the window loop: while `k * step` is before the end, window `k` exists and is
      the slice the loop takes. */
  lemma WindowNext(ts: seq<Token>, size: nat, step: nat, k: nat, start: nat)
    requires step > 0 && start == k * step && start < |ts|
    ensures k < |Windows(ts, size, step)|
    ensures Windows(ts, size, step)[k] == ts[start..Min(start + size, |ts|)]
    ensures start + step == (k + 1) * step
  {
    WindowExists(ts, size, step, k);
    WindowsFromAt(ts, size, step, 0, k);
  }

  /** When the loop stops, the windows taken are all the windows. */
  lemma WindowsDone(ts: seq<Token>, size: nat, step: nat, k: nat)
    requires step > 0 && k * step >= |ts| && k <= |Windows(ts, size, step)|
    ensures Windows(ts, size, step)[..k] == Windows(ts, size, step)
  {
    WindowExists(ts, size, step, k);
    TakeAll(Windows(ts, size, step));
  }

  lemma AllBodiesSnoc(pieces: seq<string>, i: nat, tok: Tokenizer, size: nat, step: nat)
    requires step > 0 && i < |pieces|
    ensures AllBodies(pieces[..i + 1], tok, size, step)
      == AllBodies(pieces[..i], tok, size, step) + PieceBodies(pieces[i], tok, size, step)
  {
    assert pieces[..i + 1][..i] == pieces[..i];
  }

  /** Labelling the bodies of one more window appends one chunk, whose id is drawn with the
      number of chunks before it. */
  lemma ChunkStep(bodies0: seq<Body>, ws: seq<seq<Token>>, k: nat, source: string, title: string,
                  decode: seq<Token> -> string, newId: nat -> string)
    requires k < |ws|
    ensures var before := Label(bodies0 + WindowBodies(ws[..k], decode), source, title, newId);
      Label(bodies0 + WindowBodies(ws[..k + 1], decode), source, title, newId)
        == before + [Chunk(newId(|before|), Strip(decode(ws[k])), source, title, |ws[k]|)]
  {
    var b := Body(Strip(decode(ws[k])), |ws[k]|);
    WindowBodiesSnoc(ws, k, decode);
    AppendAssoc(bodies0, WindowBodies(ws[..k], decode), [b]);
    LabelSnoc(bodies0 + WindowBodies(ws[..k], decode), b, source, title, newId);
  }

  lemma WindowBodiesSnoc(ws: seq<seq<Token>>, k: nat, decode: seq<Token> -> string)
    requires k < |ws|
    ensures WindowBodies(ws[..k + 1], decode) == WindowBodies(ws[..k], decode) + [Body(Strip(decode(ws[k])), |ws[k]|)]
  {
    assert ws[..k + 1][..k] == ws[..k];
  }

  /** The `i`-th labelled chunk carries the `i`-th id, the `i`-th body, and the given source and
      title. */
  lemma {:induction false} LabelAt(bs: seq<Body>, source: string, title: string, newId: nat -> string, i: nat)
    requires i < |bs|
    ensures Label(bs, source, title, newId)[i] == Chunk(newId(i), bs[i].text, source, title, bs[i].tokens)
  {
    if i < |bs| - 1 {
      LabelAt(bs[..|bs| - 1], source, title, newId, i);
    }
  }

  lemma LabelSnoc(bs: seq<Body>, b: Body, source: string, title: string, newId: nat -> string)
    ensures Label(bs + [b], source, title, newId)
      == Label(bs, source, title, newId) + [Chunk(newId(|bs|), b.text, source, title, b.tokens)]
  {
    SnocPrefix(bs, b);
  }

  // ---------------------------------------------------------------------------------------------
  // Properties of the chunk list

  /** No chunk holds more than `chunk_tokens` tokens, and each carries the given source and
      title. */
  lemma ChunksBounded(text: string, source: string, title: string, chunkTokens: nat, overlap: int,
                      tok: Tokenizer, split: string -> seq<string>, newId: nat -> string)
    requires overlap < chunkTokens
    ensures forall c :: c in Chunks(text, source, title, chunkTokens, overlap, tok, split, newId) ==>
      c.tokens <= chunkTokens && c.source == source && c.title == title
  {
    var bs := AllBodies(split(text), tok, chunkTokens, chunkTokens - overlap);
    var cs := Label(bs, source, title, newId);
    forall c | c in cs ensures c.tokens <= chunkTokens && c.source == source && c.title == title {
      var i :| 0 <= i < |cs| && cs[i] == c;
      LabelAt(bs, source, title, newId, i);
    }
  }

  /**
   * The control of the window loop as written, for any `overlap`, run for at most `rounds`
   * turns: `start` begins at 0 and advances by `chunk_tokens - overlap` while it is below the
   * token count. With `overlap < chunk_tokens` the loop has stopped by itself within `n` turns.
   * With `overlap >= chunk_tokens` and an oversized piece it is still running after every number
   * of turns: the source's loop never ends.
   */
  method WindowLoopAsWritten(n: nat, chunkTokens: nat, overlap: int, rounds: nat)
    returns (start: int, turns: nat)
    ensures turns <= rounds && start == turns * (chunkTokens - overlap)
    ensures turns < rounds ==> start >= n
    ensures overlap < chunkTokens && rounds >= n ==> start >= n
    ensures overlap >= chunkTokens && n > chunkTokens ==> turns == rounds && start < n
  {
    var step := chunkTokens - overlap;
    start, turns := 0, 0;
    while turns < rounds && start < n
      invariant turns <= rounds && start == turns * step
      invariant step > 0 ==> start >= turns
      invariant step <= 0 && n > chunkTokens ==> start <= 0
    {
      start, turns := start + step, turns + 1;
    }
  }

  /** A piece that fits gives one chunk; an oversized piece of `n` tokens gives `ceil(n / step)`. */
  lemma PieceCount(piece: string, tok: Tokenizer, size: nat, step: nat)
    requires step > 0
    ensures |tok.encode(piece)| <= size ==> |PieceBodies(piece, tok, size, step)| == 1
    ensures |tok.encode(piece)| > size ==>
      |PieceBodies(piece, tok, size, step)| == (|tok.encode(piece)| + step - 1) / step
  {
    if |tok.encode(piece)| > size {
      WindowsShape(tok.encode(piece), size, step);
    }
  }
}
