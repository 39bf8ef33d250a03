/** The byte-pair encoder: code points or single bytes first, then greedy merging in place. */
module Bpe {

  const BOS := 1
  const EOS := 2
  const SPACE := 32
  const BYTE_BASE := 3
  const BYTES := 256
  const FLOOR := -10000000000.0
  const MAX_POINT := 4

  type Bytes = seq<int>

  /** `lookup` is the binary search over the sorted vocabulary. */
  datatype Tokenizer = Tokenizer(vocab: seq<Bytes>, scores: seq<real>, lookup: Bytes -> int)

  /** Lookup is exact. */
  ghost predicate Valid(t: Tokenizer) {
    && |t.scores| == |t.vocab|
    && (forall s :: t.lookup(s) == -1 || (0 <= t.lookup(s) < |t.vocab| && t.vocab[t.lookup(s)] == s))
    && (forall i | 0 <= i < |t.vocab| :: t.lookup(t.vocab[i]) != -1)
  }

  predicate InVocab(t: Tokenizer, toks: seq<int>) {
    forall i | 0 <= i < |toks| :: 0 <= toks[i] < |t.vocab|
  }

  /** The vocabulary strings of a token list, one after the other. */
  function Text(t: Tokenizer, toks: seq<int>): Bytes
    requires InVocab(t, toks)
  {
    if toks == [] then [] else Text(t, toks[..|toks| - 1]) + t.vocab[toks[|toks| - 1]]
  }

  /** What a token of the first pass stands for: one byte if it is a fallback, else its string. */
  function Spelling(t: Tokenizer, tok: int, byte: bool): Bytes
    requires 0 <= tok < |t.vocab|
  {
    if byte then [tok - BYTE_BASE] else t.vocab[tok]
  }

  function Spelled(t: Tokenizer, toks: seq<int>, byte: seq<bool>): Bytes
    requires InVocab(t, toks) && |byte| == |toks|
  {
    if toks == [] then []
    else Spelled(t, toks[..|toks| - 1], byte[..|toks| - 1]) + Spelling(t, toks[|toks| - 1], byte[|toks| - 1])
  }

  /** A UTF-8 continuation byte. */
  predicate IsCont(b: int) {
    b / 64 == 2
  }

  predicate IsText(s: Bytes) {
    forall i | 0 <= i < |s| :: 0 < s[i] < BYTES
  }

  /** The bytes of the text have byte tokens. */
  predicate HasBytes(t: Tokenizer, s: Bytes) {
    forall i | 0 <= i < |s| :: s[i] + BYTE_BASE < |t.vocab|
  }

  /** The blank is in the vocabulary if it is needed, and so is the begin token. */
  predicate HasHead(t: Tokenizer, text: Bytes, bos: bool) {
    (bos ==> BOS < |t.vocab|) && (text != [] ==> t.lookup([SPACE]) != -1)
  }

  // ----- First pass -----

  /** The tokens spell `s`. */
  ghost predicate Covers(t: Tokenizer, toks: seq<int>, byte: seq<bool>, s: Bytes) {
    InVocab(t, toks) && |byte| == |toks| && Spelled(t, toks, byte) == s
  }

  lemma CoversMore(t: Tokenizer, toks: seq<int>, byte: seq<bool>, s: Bytes, tok: int, b: bool)
    requires Covers(t, toks, byte, s) && 0 <= tok < |t.vocab|
    ensures Covers(t, toks + [tok], byte + [b], s + Spelling(t, tok, b))
  {
    assert (toks + [tok])[..|toks|] == toks && (byte + [b])[..|toks|] == byte;
  }

  /** `tokens[n++] = tok`. */
  method Push(tokens: array<int>, start: nat, n: nat, tok: int)
    requires start <= n < tokens.Length
    modifies tokens
    ensures tokens[start..n + 1] == old(tokens[start..n]) + [tok] && tokens[..start] == old(tokens[..start])
  {
    tokens[n] := tok;
  }

  /** The first pass over the text: every byte is covered exactly once, in order, by whole code points found
      in the vocabulary or by single-byte tokens. Starting a code point never drops a byte, because the
      buffer is only carried over to a continuation byte. */
  method Split(t: Tokenizer, text: Bytes, tokens: array<int>, start: nat) returns (n: nat, ghost byte: seq<bool>)
    requires Valid(t) && IsText(text) && HasBytes(t, text) && start + |text| <= tokens.Length
    modifies tokens
    ensures start <= n <= start + |text| && tokens[..start] == old(tokens[..start])
    ensures Covers(t, tokens[start..n], byte, text)
  {
    n, byte := start, [];
    var buffer: Bytes := [];
    ghost var toks, from := [], 0;
    for c := 0 to |text|
      invariant Reading(t, text, toks, byte, buffer, from, c)
      invariant start <= n <= start + from && tokens[..start] == old(tokens[..start]) && tokens[start..n] == toks
    {
      n, buffer, toks, byte, from := TakeByte(t, text, c, buffer, tokens, start, n, toks, byte, from);
    }
    assert text[..|text|] == text;
  }

  /** The tokens spell the text up to `from`; the bytes from there to `c` are in the buffer, and the next one
      belongs to them. */
  ghost predicate Reading(t: Tokenizer, text: Bytes, toks: seq<int>, byte: seq<bool>, buffer: Bytes, from: nat, c: nat) {
    && from <= c <= |text| && buffer == text[from..c] && |buffer| < MAX_POINT && Covers(t, toks, byte, text[..from])
    && (from < c ==> c < |text| && IsCont(text[c]))
  }

  /** The body of the first loop. */
  method TakeByte(t: Tokenizer, text: Bytes, c: nat, was: Bytes, tokens: array<int>, start: nat, n0: nat,
                  ghost toks0: seq<int>, ghost byte0: seq<bool>, ghost from0: nat)
      returns (n: nat, buffer: Bytes, ghost toks: seq<int>, ghost byte: seq<bool>, ghost from: nat)
    requires Valid(t) && IsText(text) && HasBytes(t, text) && start + |text| <= tokens.Length && c < |text|
    requires Reading(t, text, toks0, byte0, was, from0, c) && start <= n0 <= start + from0 && tokens[start..n0] == toks0
    modifies tokens
    ensures Reading(t, text, toks, byte, buffer, from, c + 1)
    ensures start <= n <= start + from && tokens[..start] == old(tokens[..start]) && tokens[start..n] == toks
  {
    n, toks, byte, from := n0, toks0, byte0, from0;
    buffer := if IsCont(text[c]) then was else [];
    buffer := buffer + [text[c]];
    Pieces(t, text, from, c);
    if c + 1 < |text| && IsCont(text[c + 1]) && |buffer| < MAX_POINT {
      return;
    }
    n, toks, byte := Flush(t, buffer, tokens, start, n, toks, byte, text[..from]);
    from, buffer := c + 1, [];
  }

  /** The bytes read since `from`, with the next one, and what they complete. */
  lemma Pieces(t: Tokenizer, text: Bytes, from: nat, c: nat)
    requires from <= c < |text| && IsText(text) && HasBytes(t, text)
    ensures text[from..c] + [text[c]] == text[from..c + 1] && text[..from] + text[from..c + 1] == text[..c + 1]
    ensures IsText(text[from..c + 1]) && HasBytes(t, text[from..c + 1])
  {
  }

  /** One code point: its own token, or one token per byte. */
  method Flush(t: Tokenizer, buffer: Bytes, tokens: array<int>, start: nat, from: nat,
               ghost toks: seq<int>, ghost was: seq<bool>, ghost done: Bytes)
      returns (n: nat, ghost more: seq<int>, ghost byte: seq<bool>)
    requires Valid(t) && IsText(buffer) && HasBytes(t, buffer) && buffer != [] && start <= from && from + |buffer| <= tokens.Length
    requires tokens[start..from] == toks && Covers(t, toks, was, done)
    modifies tokens
    ensures from < n <= from + |buffer| && tokens[..start] == old(tokens[..start])
    ensures tokens[start..n] == more && Covers(t, more, byte, done + buffer)
  {
    var id := t.lookup(buffer);
    if id != -1 {
      CoversMore(t, toks, was, done, id, false);
      Push(tokens, start, from, id);
      n, more, byte := from + 1, toks + [id], was + [false];
    } else {
      n, more, byte := FallBack(t, buffer, tokens, start, from, toks, was, done);
    }
  }

  method FallBack(t: Tokenizer, buffer: Bytes, tokens: array<int>, start: nat, from: nat,
                  ghost toks: seq<int>, ghost was: seq<bool>, ghost done: Bytes)
      returns (n: nat, ghost more: seq<int>, ghost byte: seq<bool>)
    requires HasBytes(t, buffer) && IsText(buffer) && start <= from && from + |buffer| <= tokens.Length
    requires tokens[start..from] == toks && Covers(t, toks, was, done)
    modifies tokens
    ensures n == from + |buffer| && tokens[..start] == old(tokens[..start])
    ensures tokens[start..n] == more && Covers(t, more, byte, done + buffer)
  {
    n, more, byte := from, toks, was;
    ghost var said := done;
    for i := 0 to |buffer|
      invariant n == from + i && tokens[..start] == old(tokens[..start]) && tokens[start..n] == more
      invariant Covers(t, more, byte, said) && said == done + buffer[..i]
    {
      var tok := buffer[i] + BYTE_BASE;
      CoversMore(t, more, byte, said, tok, true);
      Push(tokens, start, n, tok);
      more, byte, said := more + [tok], byte + [true], said + [buffer[i]];
      n := n + 1;
    }
    assert buffer[..|buffer|] == buffer;
  }

  // ----- Merging -----

  /** The vocabulary entry that tokens `i` and `i + 1` make together, or -1. */
  function PairId(t: Tokenizer, toks: seq<int>, i: nat): int
    requires InVocab(t, toks) && i + 1 < |toks|
  {
    t.lookup(t.vocab[toks[i]] + t.vocab[toks[i + 1]])
  }

  ghost predicate Mergeable(t: Tokenizer, toks: seq<int>, i: nat)
    requires Valid(t) && InVocab(t, toks) && i + 1 < |toks|
  {
    PairId(t, toks, i) != -1 && t.scores[PairId(t, toks, i)] > FLOOR
  }

  /** Pair `i` makes a better merge than pair `j`, or the same and comes first. */
  ghost predicate Beats(t: Tokenizer, toks: seq<int>, i: nat, j: nat)
    requires Valid(t) && InVocab(t, toks) && i + 1 < |toks| && j + 1 < |toks|
  {
    Mergeable(t, toks, j) ==>
      && Mergeable(t, toks, i)
      && var a, b := t.scores[PairId(t, toks, i)], t.scores[PairId(t, toks, j)]; if j < i then a > b else a >= b
  }

  /** The search for the best pair: the first of those with the highest score above the floor. */
  method BestPair(t: Tokenizer, tokens: array<int>, n: nat) returns (idx: int, id: int)
    requires Valid(t) && n <= tokens.Length && InVocab(t, tokens[..n])
    ensures idx == -1 ==> forall j | 0 <= j < n - 1 :: !Mergeable(t, tokens[..n], j)
    ensures idx != -1 ==> 0 <= idx < n - 1 && Mergeable(t, tokens[..n], idx) && id == PairId(t, tokens[..n], idx)
    ensures idx != -1 ==> forall j | 0 <= j < n - 1 :: Beats(t, tokens[..n], idx, j)
  {
    var score := FLOOR;
    idx, id := -1, -1;
    ghost var toks := tokens[..n];
    var i := 0;
    while i < n - 1
      invariant 0 <= i && (if n == 0 then i == 0 else i <= n - 1)
      invariant idx == -1 ==> score == FLOOR && forall j | 0 <= j < i && j + 1 < |toks| :: !Mergeable(t, toks, j)
      invariant idx != -1 ==> 0 <= idx < i < |toks| && Mergeable(t, toks, idx)
      invariant idx != -1 ==> id == PairId(t, toks, idx) && score == t.scores[id]
      invariant idx != -1 ==> forall j | 0 <= j < i && j + 1 < |toks| :: Beats(t, toks, idx, j)
    {
      var merged := t.lookup(t.vocab[tokens[i]] + t.vocab[tokens[i + 1]]);
      assert merged == PairId(t, toks, i);
      ghost var prev := idx;
      if merged != -1 && t.scores[merged] > score {
        score, id, idx := t.scores[merged], merged, i;
      }
      if idx != -1 {
        forall j | 0 <= j <= i ensures Beats(t, toks, idx, j) {
          assert prev != -1 && j < i ==> Beats(t, toks, prev, j);
        }
      }
      i := i + 1;
    }
  }

  function Merged(toks: seq<int>, i: nat, id: int): seq<int>
    requires i + 1 < |toks|
  {
    toks[..i] + [id] + toks[i + 2..]
  }

  /** Replaces a pair by its merge and closes the gap. */
  method MergePair(tokens: array<int>, n: nat, idx: nat, id: int)
    requires idx + 1 < n <= tokens.Length
    modifies tokens
    ensures tokens[..n - 1] == Merged(old(tokens[..n]), idx, id)
  {
    tokens[idx] := id;
    for i := idx + 1 to n - 1
      invariant forall k | 0 <= k < n :: tokens[k] ==
                  if k == idx then id else if idx < k < i then old(tokens[k + 1]) else old(tokens[k])
    {
      tokens[i] := tokens[i + 1];
    }
  }

  lemma {:induction false} TextSplit(t: Tokenizer, a: seq<int>, b: seq<int>)
    requires InVocab(t, a) && InVocab(t, b)
    ensures InVocab(t, a + b) && Text(t, a + b) == Text(t, a) + Text(t, b)
  {
    if b == [] {
      assert a + b == a;
    } else {
      var b', x := b[..|b| - 1], b[|b| - 1];
      assert (a + b)[..|a + b| - 1] == a + b';
      TextSplit(t, a, b');
    }
  }

  /** A merge keeps the concatenation of vocabulary strings. */
  lemma MergedText(t: Tokenizer, toks: seq<int>, i: nat, id: int)
    requires Valid(t) && InVocab(t, toks) && i + 1 < |toks| && id == PairId(t, toks, i) != -1
    ensures InVocab(t, Merged(toks, i, id)) && Text(t, Merged(toks, i, id)) == Text(t, toks)
  {
    var a, b := toks[..i], toks[i + 2..];
    var pair := [toks[i], toks[i + 1]];
    TwoText(t, toks[i], toks[i + 1], id);
    assert Merged(toks, i, id) == a + [id] + b && toks == a + pair + b;
    SwapMiddle(t, a, pair, [id], b);
  }

  lemma SwapMiddle(t: Tokenizer, a: seq<int>, m: seq<int>, m': seq<int>, b: seq<int>)
    requires InVocab(t, a) && InVocab(t, m) && InVocab(t, m') && InVocab(t, b) && Text(t, m) == Text(t, m')
    ensures InVocab(t, a + m' + b) && InVocab(t, a + m + b) && Text(t, a + m' + b) == Text(t, a + m + b)
  {
    TextThree(t, a, m, b);
    TextThree(t, a, m', b);
  }

  lemma TextThree(t: Tokenizer, a: seq<int>, m: seq<int>, b: seq<int>)
    requires InVocab(t, a) && InVocab(t, m) && InVocab(t, b)
    ensures InVocab(t, a + m + b) && Text(t, a + m + b) == Text(t, a) + Text(t, m) + Text(t, b)
  {
    TextSplit(t, a, m);
    TextSplit(t, a + m, b);
  }

  lemma TwoText(t: Tokenizer, x: int, y: int, id: int)
    requires 0 <= x < |t.vocab| && 0 <= y < |t.vocab| && 0 <= id < |t.vocab| && t.vocab[id] == t.vocab[x] + t.vocab[y]
    ensures Text(t, [id]) == Text(t, [x, y])
  {
    assert [x, y][..1] == [x] && [x][..0] == [] && [id][..0] == [];
  }

  /** Merging until no adjacent pair can be merged any more. */
  method MergeAll(t: Tokenizer, tokens: array<int>, from: nat) returns (n: nat)
    requires Valid(t) && from <= tokens.Length && InVocab(t, tokens[..from])
    modifies tokens
    ensures n <= from && InVocab(t, tokens[..n]) && Text(t, tokens[..n]) == Text(t, old(tokens[..from]))
    ensures forall j | 0 <= j < n - 1 :: !Mergeable(t, tokens[..n], j)
    ensures from > 0 ==> n > 0
  {
    n := from;
    while true
      invariant n <= from && InVocab(t, tokens[..n]) && Text(t, tokens[..n]) == Text(t, old(tokens[..from]))
      invariant from > 0 ==> n > 0
      decreases n
    {
      var idx, id := BestPair(t, tokens, n);
      if idx == -1 {
        return;
      }
      MergedText(t, tokens[..n], idx, id);
      MergePair(tokens, n, idx, id);
      n := n - 1;
    }
  }

  // ----- The encoder -----

  /** What precedes the text: the begin token if wanted, and a blank before a text that is not empty. */
  function Head(t: Tokenizer, text: Bytes, bos: bool): seq<int> {
    (if bos then [BOS] else []) + (if text != [] then [t.lookup([SPACE])] else [])
  }

  method PushHead(t: Tokenizer, text: Bytes, bos: bool, tokens: array<int>) returns (n: nat)
    requires Valid(t) && HasHead(t, text, bos) && tokens.Length >= 2
    modifies tokens
    ensures n <= 2 && tokens[..n] == Head(t, text, bos) && InVocab(t, tokens[..n])
  {
    n := 0;
    if bos {
      tokens[n] := BOS;
      n := n + 1;
    }
    if text != [] {
      tokens[n] := t.lookup([SPACE]);
      n := n + 1;
    }
  }

  /** `encode`. The tokens before merging are the head and then `body`, which spells the text byte by byte;
      the `merged` tokens left after merging have the same vocabulary strings one after the other and
      contain no pair that could be merged. Never more than `|text| + 3` tokens are written. */
  method Encode(t: Tokenizer, text: Bytes, bos: bool, eos: bool, tokens: array<int>)
      returns (n: nat, ghost body: seq<int>, ghost byte: seq<bool>, ghost merged: nat)
    requires Valid(t) && IsText(text) && HasBytes(t, text) && HasHead(t, text, bos) && tokens.Length >= |text| + 3
    modifies tokens
    ensures Covers(t, body, byte, text) && InVocab(t, Head(t, text, bos) + body)
    ensures merged <= n <= |text| + 3 && InVocab(t, tokens[..merged])
    ensures Text(t, tokens[..merged]) == Text(t, Head(t, text, bos) + body)
    ensures forall j | 0 <= j < merged - 1 :: !Mergeable(t, tokens[..merged], j)
    ensures tokens[merged..n] == if eos then [EOS] else []
  {
    var start := PushHead(t, text, bos, tokens);
    var all;
    all, byte := Split(t, text, tokens, start);
    body := tokens[start..all];
    assert tokens[..all] == Head(t, text, bos) + body;
    n := MergeAll(t, tokens, all);
    merged := n;
    if eos {
      ghost var kept := tokens[..n];
      tokens[n] := EOS;
      assert tokens[..n] == kept;
      n := n + 1;
    }
  }
}
