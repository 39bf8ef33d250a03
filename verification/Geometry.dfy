/** Where a checkpoint keeps its tensors: the monolithic walk, the per-layer slices a shard fetches
    and the master's head and tail must all mean the same bytes. */
module Geometry {

  const HEADER_BYTES := 28
  const FLOAT_BYTES := 4
  const TENSORS := 9

  datatype Config = Config(dim: nat, hidden: nat, nLayers: nat, nHeads: nat, nKvHeads: nat, vocab: int, seqLen: nat)

  /** What `shard_fetch_config` lets through. */
  predicate Plausible(p: Config) {
    && p.dim > 0 && p.hidden > 0 && p.nLayers > 0 && p.nHeads > 0 && p.nKvHeads > 0 && p.vocab != 0 && p.seqLen > 0
    && p.dim % p.nHeads == 0
  }

  function Vocab(p: Config): nat {
    if p.vocab < 0 then -p.vocab else p.vocab
  }

  function HeadSize(p: Config): nat
    requires p.nHeads > 0
  {
    p.dim / p.nHeads
  }

  function KvDim(p: Config): nat
    requires p.nHeads > 0
  {
    HeadSize(p) * p.nKvHeads
  }

  /** Elements one layer contributes to each tensor: rms_att, wq, wk, wv, wo, rms_ffn, w1, w2, w3. */
  function Strides(p: Config): (s: seq<nat>)
    requires p.nHeads > 0
    ensures |s| == TENSORS
  {
    var dim, kv, hidden := p.dim, KvDim(p), p.hidden;
    [dim, dim * dim, dim * kv, dim * kv, dim * dim, dim, dim * hidden, hidden * dim, dim * hidden]
  }

  /** Where tensor `i` begins when each of `n` layers contributes `s[j]` elements to tensor `j`. */
  function StartOf(first: nat, n: nat, s: seq<nat>, i: nat): nat
    requires i <= |s|
  {
    if i == 0 then first else StartOf(first, n, s, i - 1) + n * s[i - 1]
  }

  /** Where tensor `i` begins, in elements from the first weight: after the embedding table and all
      layers of the tensors before it. */
  function Base(p: Config, i: nat): nat
    requires p.nHeads > 0 && i <= TENSORS
  {
    StartOf(Vocab(p) * p.dim, p.nLayers, Strides(p), i)
  }

  lemma Products(a: nat, b: nat, c: nat)
    ensures a * b * c == a * (b * c) && a * (b * c) == a * (c * b)
  {
  }

  lemma HeadsTimesSize(p: Config)
    requires Plausible(p)
    ensures p.nHeads * HeadSize(p) == p.dim
    ensures p.dim * p.nKvHeads / p.nHeads == KvDim(p)
  {
    var h := HeadSize(p);
    assert p.dim == p.nHeads * h;
    DivideOut(p.nHeads, h * p.nKvHeads);
    Products(p.nHeads, h, p.nKvHeads);
  }

  lemma DivideOut(d: nat, q: nat)
    requires d > 0
    ensures d * q / d == q
  {
    var x := d * q / d;
    assert d * (q - x) == d * q - d * x;
    if q > x { Grows(d, q - x); }
  }

  lemma Grows(d: nat, k: nat)
    requires d > 0 && k >= 1
    ensures d * k >= d
  {
  }

  // ----- The three walks -----

  /** `ckpt_geometry`. */
  method CkptGeometry(p: Config) returns (base: seq<nat>, stride: seq<nat>)
    requires p.nHeads > 0
    ensures stride == Strides(p) && |base| == TENSORS && forall i | 0 <= i < TENSORS :: base[i] == Base(p, i)
  {
    BaseSteps(p);
    var dim, hidden, n := p.dim, p.hidden, p.nLayers;
    var kv := (dim / p.nHeads) * p.nKvHeads;
    var off := (if p.vocab < 0 then -p.vocab else p.vocab) * dim;
    base, stride := [off], [dim];
    off := off + n * dim;
    base, stride := base + [off], stride + [dim * dim];
    off := off + n * dim * dim;
    base, stride := base + [off], stride + [dim * kv];
    off := off + n * dim * kv;
    base, stride := base + [off], stride + [dim * kv];
    off := off + n * dim * kv;
    base, stride := base + [off], stride + [dim * dim];
    off := off + n * dim * dim;
    base, stride := base + [off], stride + [dim];
    off := off + n * dim;
    base, stride := base + [off], stride + [dim * hidden];
    off := off + n * dim * hidden;
    base, stride := base + [off], stride + [hidden * dim];
    off := off + n * hidden * dim;
    base, stride := base + [off], stride + [dim * hidden];
  }

  /** Each step of the walk, with the products as the code writes them. */
  lemma BaseSteps(p: Config)
    requires p.nHeads > 0
    ensures var n, dim, hidden, kv := p.nLayers, p.dim, p.hidden, KvDim(p);
            && Base(p, 0) == Vocab(p) * dim
            && Base(p, 1) == Base(p, 0) + n * dim
            && Base(p, 2) == Base(p, 1) + n * dim * dim
            && Base(p, 3) == Base(p, 2) + n * dim * kv
            && Base(p, 4) == Base(p, 3) + n * dim * kv
            && Base(p, 5) == Base(p, 4) + n * dim * dim
            && Base(p, 6) == Base(p, 5) + n * dim
            && Base(p, 7) == Base(p, 6) + n * dim * hidden
            && Base(p, 8) == Base(p, 7) + n * hidden * dim
            && Base(p, 9) == Base(p, 8) + n * dim * hidden
  {
    Products(p.nLayers, p.dim, p.dim);
    Products(p.nLayers, p.dim, KvDim(p));
    Products(p.nLayers, p.dim, p.hidden);
    Products(p.nLayers, p.hidden, p.dim);
  }

  /** The monolithic mapping, as offsets from the first weight. */
  datatype Weights = Weights(embed: int, tensors: seq<int>, final: int, wcls: int)

  /** `w` has the tensors where the running sums put them. The classifier, if it is not shared, follows the
      final norm and the two frequency tables, whose lengths are rounded down. */
  predicate Mapped(p: Config, shared: bool, w: Weights)
    requires p.nHeads > 0
  {
    && w.embed == 0 && |w.tensors| == TENSORS && (forall i | 0 <= i < TENSORS :: w.tensors[i] == Base(p, i))
    && w.final == Base(p, TENSORS)
    && w.wcls == if shared then 0 else Base(p, TENSORS) + p.dim + 2 * (p.seqLen * HeadSize(p) / 2)
  }

  /** `memory_map_weights`, after the sign of the vocabulary size has been taken off. */
  method MemoryMapWeights(p: Config, shared: bool) returns (w: Weights)
    requires Plausible(p) && p.vocab > 0
    ensures Mapped(p, shared, w)
  {
    WalkSteps(p);
    var hs, n, dim := p.dim / p.nHeads, p.nLayers, p.dim;
    var ptr := p.vocab * dim;
    var rmsAtt := ptr;
    ptr := ptr + n * dim;
    var wq := ptr;
    ptr := ptr + n * dim * (p.nHeads * hs);
    var wk := ptr;
    ptr := ptr + n * dim * (p.nKvHeads * hs);
    var wv := ptr;
    ptr := ptr + n * dim * (p.nKvHeads * hs);
    var wo := ptr;
    ptr := ptr + n * (p.nHeads * hs) * dim;
    var rmsFfn := ptr;
    ptr := ptr + n * dim;
    var w1 := ptr;
    ptr := ptr + n * dim * p.hidden;
    var w2 := ptr;
    ptr := ptr + n * p.hidden * dim;
    var w3 := ptr;
    ptr := ptr + n * dim * p.hidden;
    var final := ptr;
    ptr := ptr + dim;
    ptr := ptr + p.seqLen * hs / 2;
    ptr := ptr + p.seqLen * hs / 2;
    w := Weights(0, [rmsAtt, wq, wk, wv, wo, rmsFfn, w1, w2, w3], final, if shared then 0 else ptr);
  }

  /** The steps of the monolithic walk, with the products as that code writes them. */
  lemma WalkSteps(p: Config)
    requires Plausible(p)
    ensures var n, dim, hidden, hs := p.nLayers, p.dim, p.hidden, p.dim / p.nHeads;
            && Base(p, 0) == Vocab(p) * dim
            && Base(p, 1) == Base(p, 0) + n * dim
            && Base(p, 2) == Base(p, 1) + n * dim * (p.nHeads * hs)
            && Base(p, 3) == Base(p, 2) + n * dim * (p.nKvHeads * hs)
            && Base(p, 4) == Base(p, 3) + n * dim * (p.nKvHeads * hs)
            && Base(p, 5) == Base(p, 4) + n * (p.nHeads * hs) * dim
            && Base(p, 6) == Base(p, 5) + n * dim
            && Base(p, 7) == Base(p, 6) + n * dim * hidden
            && Base(p, 8) == Base(p, 7) + n * hidden * dim
            && Base(p, 9) == Base(p, 8) + n * dim * hidden
  {
    BaseSteps(p);
    HeadsTimesSize(p);
    var hs := p.dim / p.nHeads;
    Commutes(p.nKvHeads, hs);
    MapStrides(p.nLayers, p.dim, p.nHeads * hs, p.nKvHeads * hs, KvDim(p));
  }

  lemma Commutes(a: nat, b: nat)
    ensures a * b == b * a
  {
  }

  lemma MapStrides(n: nat, dim: nat, all: nat, kv: nat, kvDim: nat)
    requires all == dim && kv == kvDim
    ensures n * dim * all == n * dim * dim && n * all * dim == n * dim * dim && n * dim * kv == n * dim * kvDim
  {
  }

  /** `llama_layer_at`: the nine tensors of layer `l` in the monolithic mapping. */
  function LayerAt(w: Weights, p: Config, l: nat): (at: seq<int>)
    requires |w.tensors| == TENSORS && p.nHeads > 0
    ensures |at| == TENSORS
  {
    var dim, kv, hidden := p.dim, p.dim * p.nKvHeads / p.nHeads, p.hidden;
    [w.tensors[0] + l * dim, w.tensors[1] + l * dim * dim, w.tensors[2] + l * dim * kv, w.tensors[3] + l * dim * kv,
     w.tensors[4] + l * dim * dim, w.tensors[5] + l * dim, w.tensors[6] + l * dim * hidden,
     w.tensors[7] + l * dim * hidden, w.tensors[8] + l * dim * hidden]
  }

  /** Where in the file `shard_load` fetches tensor `i` of layer `l` from. */
  function SourceOffset(p: Config, l: nat, i: nat): nat
    requires p.nHeads > 0 && i < TENSORS
  {
    ByteOffset(Vocab(p) * p.dim, p.nLayers, Strides(p), l, i)
  }

  function ByteOffset(first: nat, n: nat, s: seq<nat>, l: nat, i: nat): nat
    requires i < |s|
  {
    HEADER_BYTES + (StartOf(first, n, s, i) + l * s[i]) * FLOAT_BYTES
  }

  /** A shard fetches exactly the bytes the monolithic mapping points at. */
  lemma SliceIsLayerAt(p: Config, w: Weights, l: nat, i: nat)
    requires Plausible(p) && i < TENSORS
    requires |w.tensors| == TENSORS && forall j | 0 <= j < TENSORS :: w.tensors[j] == Base(p, j)
    ensures SourceOffset(p, l, i) == HEADER_BYTES + LayerAt(w, p, l)[i] * FLOAT_BYTES
  {
    HeadsTimesSize(p);
    Products(l, p.dim, p.dim);
    Products(l, p.dim, KvDim(p));
    Products(l, p.dim, p.hidden);
  }

  // ----- Disjointness -----

  lemma {:induction false} StartMono(first: nat, n: nat, s: seq<nat>, i: nat, j: nat)
    requires i < j <= |s|
    ensures StartOf(first, n, s, i) + n * s[i] <= StartOf(first, n, s, j)
    decreases j
  {
    if i < j - 1 { StartMono(first, n, s, i, j - 1); }
  }

  /** Slice `l` of `n` equal slices ends where the next begins, inside the whole. */
  lemma SliceEnds(l: nat, n: nat, s: nat)
    requires l < n
    ensures l * s + s <= n * s
  {
    assert (n - l) * s == n * s - l * s;
    Grows2(n - l, s);
  }

  lemma Grows2(k: nat, s: nat)
    requires k >= 1
    ensures k * s >= s
  {
  }

  lemma SliceInside(first: nat, n: nat, s: seq<nat>, l: nat, i: nat, j: nat)
    requires l < n && i < j <= |s|
    ensures StartOf(first, n, s, i) + l * s[i] + s[i] <= StartOf(first, n, s, j)
  {
    var size := s[i];
    SliceEnds(l, n, size);
    StartMono(first, n, s, i, j);
  }

  lemma SlicesApart(first: nat, n: nat, s: seq<nat>, l: nat, i: nat, l': nat, j: nat)
    requires l < n && l' < n && i < |s| && j < |s| && (i < j || (i == j && l < l'))
    ensures ByteOffset(first, n, s, l, i) + s[i] * FLOAT_BYTES <= ByteOffset(first, n, s, l', j)
  {
    if i < j {
      SliceInside(first, n, s, l, i, j);
    } else {
      SliceEnds(l, l', s[i]);
    }
  }

  /** The byte ranges `shard_load` fetches never overlap, for any layers and tensors, and all lie before
      the final norm. */
  lemma SlicesDisjoint(p: Config, l: nat, i: nat, l': nat, j: nat)
    requires Plausible(p) && l < p.nLayers && l' < p.nLayers && i < TENSORS && j < TENSORS
    requires i < j || (i == j && l < l')
    ensures SourceOffset(p, l, i) + Strides(p)[i] * FLOAT_BYTES <= SourceOffset(p, l', j)
    ensures SourceOffset(p, l', j) + Strides(p)[j] * FLOAT_BYTES <= HEADER_BYTES + Base(p, TENSORS) * FLOAT_BYTES
  {
    SlicesApart(Vocab(p) * p.dim, p.nLayers, Strides(p), l, i, l', j);
    SliceInside(Vocab(p) * p.dim, p.nLayers, Strides(p), l', j, |Strides(p)|);
  }

  // ----- Head and tail -----

  datatype HeadTail = HeadTail(embedOff: int, embedBytes: int, finalOff: int, finalBytes: int, wclsOff: int, wclsBytes: int)

  /** `llama_head_tail_offsets`. */
  method HeadTailOffsets(p: Config, shared: bool) returns (h: HeadTail)
    requires Plausible(p)
    ensures h == HeadTailOf(p, shared)
  {
    WalkSteps(p);
    var hs, n, dim, vocab := p.dim / p.nHeads, p.nLayers, p.dim, Vocab(p);
    var embed := 0;
    var off := vocab * dim;
    off := off + n * dim;
    off := off + n * dim * (p.nHeads * hs);
    off := off + n * dim * (p.nKvHeads * hs);
    off := off + n * dim * (p.nKvHeads * hs);
    off := off + n * (p.nHeads * hs) * dim;
    off := off + n * dim;
    off := off + n * dim * p.hidden;
    off := off + n * p.hidden * dim;
    off := off + n * dim * p.hidden;
    var final := off;
    off := off + dim;
    off := off + p.seqLen * hs;
    var wcls := off;
    var embedOff, embedBytes := HEADER_BYTES + embed * FLOAT_BYTES, vocab * dim * FLOAT_BYTES;
    if shared {
      h := HeadTail(embedOff, embedBytes, HEADER_BYTES + final * FLOAT_BYTES, dim * FLOAT_BYTES, embedOff, embedBytes);
    } else {
      h := HeadTail(embedOff, embedBytes, HEADER_BYTES + final * FLOAT_BYTES, dim * FLOAT_BYTES,
                    HEADER_BYTES + wcls * FLOAT_BYTES, vocab * dim * FLOAT_BYTES);
    }
  }

  function HeadTailOf(p: Config, shared: bool): HeadTail
    requires p.nHeads > 0
  {
    var table := Vocab(p) * p.dim * FLOAT_BYTES;
    var wcls := if shared then 0 else Base(p, TENSORS) + p.dim + p.seqLen * HeadSize(p);
    HeadTail(HEADER_BYTES, table, HEADER_BYTES + Base(p, TENSORS) * FLOAT_BYTES, p.dim * FLOAT_BYTES,
             HEADER_BYTES + wcls * FLOAT_BYTES, table)
  }

  /** The master's offsets are those of the monolithic mapping; the classifier's are so exactly when it
      is shared or the two skipped half tables leave no element over. */
  lemma HeadTailAgrees(p: Config, shared: bool, w: Weights)
    requires Plausible(p) && Mapped(p, shared, w)
    ensures var h := HeadTailOf(p, shared);
            && h.embedOff == HEADER_BYTES + w.embed * FLOAT_BYTES && h.embedOff + h.embedBytes == SourceOffset(p, 0, 0)
            && h.finalOff == HEADER_BYTES + w.final * FLOAT_BYTES
            && h.finalOff + h.finalBytes == HEADER_BYTES + (w.final + p.dim) * FLOAT_BYTES && h.wclsBytes == h.embedBytes
            && (h.wclsOff == HEADER_BYTES + w.wcls * FLOAT_BYTES <==> shared || p.seqLen * HeadSize(p) % 2 == 0)
  {
  }

  /** Such a model: one head of three numbers and one position. The master looks for the classifier one
      element after where the monolithic mapping has it. */
  lemma OddTable() returns (p: Config, w: Weights)
    ensures Plausible(p) && Mapped(p, false, w)
    ensures HeadTailOf(p, false).wclsOff == HEADER_BYTES + (w.wcls + 1) * FLOAT_BYTES
  {
    p := Config(3, 1, 1, 1, 1, 1, 1);
    w := Weights(0, seq(TENSORS, i requires 0 <= i < TENSORS => Base(p, i)), Base(p, TENSORS), Base(p, TENSORS) + p.dim + 2);
  }
}
