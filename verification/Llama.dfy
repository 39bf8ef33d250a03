/** The transformer as its layer loop sees it: an activation goes through the layers
    in order, and each layer reads the K/V rows of earlier positions and writes the
    row of the current one. Layer arithmetic stays uninterpreted. */
module Llama {

  /** An activation vector: the bit patterns of its binary32 components. */
  datatype Vec = Vec(floats: seq<bv32>)

  /** The key and value vectors one layer stores for one position. */
  datatype Row = Row(key: seq<bv32>, value: seq<bv32>)

  /** Per layer, one row for every position up to the capacity of the cache. */
  type Cache = seq<seq<Row>>

  /** `block(l, rows, x, pos)` is `llama_block` with the weights of layer `l`: it maps the
      rows of positions before `pos` and the activation to the new activation and row. */
  datatype Model = Model(
    nLayers: nat,
    zeroRow: Row,
    embed: nat -> Vec,
    block: (nat, seq<Row>, Vec, nat) -> (Vec, Row))

  predicate HasPosition(cache: Cache, pos: nat) {
    forall i | 0 <= i < |cache| :: pos < |cache[i]|
  }

  /** The activation after the first `k` of the layers `base`, `base + 1`, ... whose caches are given. */
  function Through(m: Model, base: nat, cache: Cache, x: Vec, pos: nat, k: nat): Vec
    requires HasPosition(cache, pos) && k <= |cache|
  {
    if k == 0 then x
    else m.block(base + k - 1, cache[k - 1][..pos], Through(m, base, cache, x, pos, k - 1), pos).0
  }

  /** The row layer `base + i` writes during that run. */
  function RowOf(m: Model, base: nat, cache: Cache, x: Vec, pos: nat, i: nat): Row
    requires HasPosition(cache, pos) && i < |cache|
  {
    m.block(base + i, cache[i][..pos], Through(m, base, cache, x, pos, i), pos).1
  }

  function OutOf(m: Model, base: nat, cache: Cache, x: Vec, pos: nat): Vec
    requires HasPosition(cache, pos)
  {
    Through(m, base, cache, x, pos, |cache|)
  }

  function CacheOf(m: Model, base: nat, cache: Cache, x: Vec, pos: nat): (r: Cache)
    requires HasPosition(cache, pos)
    ensures |r| == |cache|
  {
    seq(|cache|, i requires 0 <= i < |cache| => cache[i][pos := RowOf(m, base, cache, x, pos, i)])
  }

  /** The first `cap` positions of every layer. */
  predicate IsWindow(small: Cache, full: Cache, cap: nat) {
    && |small| == |full|
    && forall i | 0 <= i < |small| :: cap <= |full[i]| && small[i] == full[i][..cap]
  }

  lemma {:induction false} WindowThrough(m: Model, base: nat, small: Cache, full: Cache, x: Vec, pos: nat, cap: nat, k: nat)
    requires pos < cap && IsWindow(small, full, cap) && k <= |small|
    requires HasPosition(small, pos) && HasPosition(full, pos)
    ensures Through(m, base, small, x, pos, k) == Through(m, base, full, x, pos, k)
    decreases k
  {
    if k > 0 {
      assert small[k - 1][..pos] == full[k - 1][..pos];
      WindowThrough(m, base, small, full, x, pos, cap, k - 1);
    }
  }

  /** Rows beyond the current position do not matter: a cache capped at `cap` positions computes
      what the full one computes, and stays its window. */
  lemma WindowRun(m: Model, base: nat, small: Cache, full: Cache, x: Vec, pos: nat, cap: nat)
    requires pos < cap && IsWindow(small, full, cap)
    ensures HasPosition(small, pos) && HasPosition(full, pos)
    ensures OutOf(m, base, small, x, pos) == OutOf(m, base, full, x, pos)
    ensures IsWindow(CacheOf(m, base, small, x, pos), CacheOf(m, base, full, x, pos), cap)
  {
    WindowThrough(m, base, small, full, x, pos, cap, |small|);
    forall i | 0 <= i < |small|
      ensures CacheOf(m, base, small, x, pos)[i] == CacheOf(m, base, full, x, pos)[i][..cap]
    {
      assert small[i][..pos] == full[i][..pos];
      WindowThrough(m, base, small, full, x, pos, cap, i);
    }
  }

  // ----- What the single node computes, with no cache in the statement -----

  /** The activation that enters layer `l` at position `p` of the token sequence. */
  ghost function Act(m: Model, toks: seq<nat>, l: nat, p: nat): Vec
    requires p < |toks|
    decreases p, 1, l
  {
    if l == 0 then m.embed(toks[p])
    else m.block(l - 1, Rows(m, toks, l - 1, p), Act(m, toks, l - 1, p), p).0
  }

  /** The first `n` rows layer `l` stores for the token sequence. */
  ghost function Rows(m: Model, toks: seq<nat>, l: nat, n: nat): (rows: seq<Row>)
    requires n <= |toks|
    ensures |rows| == n
    decreases n, 0, l
  {
    if n == 0 then []
    else Rows(m, toks, l, n - 1) + [m.block(l, Rows(m, toks, l, n - 1), Act(m, toks, l, n - 1), n - 1).1]
  }

  /** The cache agrees with the token sequence on the positions before `n`. */
  ghost predicate RowsRight(m: Model, toks: seq<nat>, base: nat, cache: Cache, n: nat)
    requires n <= |toks|
  {
    forall i | 0 <= i < |cache| :: n <= |cache[i]| && cache[i][..n] == Rows(m, toks, base + i, n)
  }

  lemma {:induction false} RowsPrefix(m: Model, toks: seq<nat>, l: nat, n: nat, k: nat)
    requires k <= n <= |toks|
    ensures Rows(m, toks, l, n)[..k] == Rows(m, toks, l, k)
    decreases n
  {
    if k < n {
      RowsPrefix(m, toks, l, n - 1, k);
    }
  }

  lemma RowsRightMono(m: Model, toks: seq<nat>, base: nat, cache: Cache, n: nat, k: nat)
    requires k <= n <= |toks|
    requires RowsRight(m, toks, base, cache, n)
    ensures RowsRight(m, toks, base, cache, k)
  {
    forall i | 0 <= i < |cache| ensures cache[i][..k] == Rows(m, toks, base + i, k) {
      RowsPrefix(m, toks, base + i, n, k);
      assert cache[i][..k] == cache[i][..n][..k];
    }
  }

  /** Later tokens do not reach back. */
  lemma {:induction false} ActExtend(m: Model, toks: seq<nat>, more: seq<nat>, l: nat, p: nat)
    requires p < |toks|
    ensures Act(m, toks + more, l, p) == Act(m, toks, l, p)
    decreases p, 1, l
  {
    if l > 0 {
      RowsExtend(m, toks, more, l - 1, p);
      ActExtend(m, toks, more, l - 1, p);
    }
  }

  lemma {:induction false} RowsExtend(m: Model, toks: seq<nat>, more: seq<nat>, l: nat, n: nat)
    requires n <= |toks|
    ensures Rows(m, toks + more, l, n) == Rows(m, toks, l, n)
    decreases n, 0, l
  {
    if n > 0 {
      RowsExtend(m, toks, more, l, n - 1);
      ActExtend(m, toks, more, l, n - 1);
    }
  }

  lemma {:induction false} ThroughRight(m: Model, toks: seq<nat>, base: nat, cache: Cache, x: Vec, pos: nat, k: nat)
    requires pos < |toks| && HasPosition(cache, pos) && k <= |cache|
    requires RowsRight(m, toks, base, cache, pos)
    requires x == Act(m, toks, base, pos)
    ensures Through(m, base, cache, x, pos, k) == Act(m, toks, base + k, pos)
    decreases k
  {
    if k > 0 {
      ThroughRight(m, toks, base, cache, x, pos, k - 1);
      assert cache[k - 1][..pos] == Rows(m, toks, base + (k - 1), pos);
    }
  }

  /** A run of consecutive layers over a right cache gives the right activation and makes the row
      of this position right. */
  lemma RunRight(m: Model, toks: seq<nat>, base: nat, cache: Cache, x: Vec, pos: nat)
    requires pos < |toks| && HasPosition(cache, pos)
    requires RowsRight(m, toks, base, cache, pos)
    requires x == Act(m, toks, base, pos)
    ensures OutOf(m, base, cache, x, pos) == Act(m, toks, base + |cache|, pos)
    ensures RowsRight(m, toks, base, CacheOf(m, base, cache, x, pos), pos + 1)
  {
    ThroughRight(m, toks, base, cache, x, pos, |cache|);
    var cache' := CacheOf(m, base, cache, x, pos);
    forall i | 0 <= i < |cache| ensures cache'[i][..pos + 1] == Rows(m, toks, base + i, pos + 1) {
      ThroughRight(m, toks, base, cache, x, pos, i);
      assert cache'[i][..pos + 1] == cache[i][..pos] + [RowOf(m, base, cache, x, pos, i)];
    }
  }

  /** Rerunning a position is harmless: it writes the row that is already there, so rows that
      were right beyond it stay right. */
  lemma RerunKeepsRows(m: Model, toks: seq<nat>, base: nat, cache: Cache, x: Vec, pos: nat, n: nat)
    requires pos < n <= |toks| && HasPosition(cache, pos)
    requires RowsRight(m, toks, base, cache, n)
    requires x == Act(m, toks, base, pos)
    ensures RowsRight(m, toks, base, CacheOf(m, base, cache, x, pos), n)
  {
    RowsRightMono(m, toks, base, cache, n, pos);
    forall i | 0 <= i < |cache| ensures CacheOf(m, base, cache, x, pos)[i][..n] == Rows(m, toks, base + i, n) {
      ThroughRight(m, toks, base, cache, x, pos, i);
      RerunWrites(m, toks, base + i, cache[i], pos, n);
    }
  }

  lemma RerunWrites(m: Model, toks: seq<nat>, l: nat, a: seq<Row>, pos: nat, n: nat)
    requires pos < n <= |toks| && n <= |a|
    requires a[..n] == Rows(m, toks, l, n)
    ensures a[pos := m.block(l, a[..pos], Act(m, toks, l, pos), pos).1] == a
  {
    RowsPrefix(m, toks, l, n, pos);
    RowsPrefix(m, toks, l, n, pos + 1);
    assert a[..pos] == a[..n][..pos];
    assert a[pos] == a[..n][..pos + 1][pos];
  }

  // ----- The single-node program -----

  /** `forward` with its KV cache: it owns every layer. */
  class Transformer {
    const model: Model
    const seqLen: nat
    var cache: Cache

    ghost predicate Valid()
      reads this
    {
      |cache| == model.nLayers && forall i | 0 <= i < |cache| :: |cache[i]| == seqLen
    }

    constructor (m: Model, n: nat)
      ensures Valid() && model == m && seqLen == n
      ensures forall l, p | 0 <= l < m.nLayers && 0 <= p < n :: cache[l][p] == m.zeroRow
      ensures forall toks: seq<nat> :: RowsRight(m, toks, 0, cache, 0)
    {
      model := m;
      seqLen := n;
      cache := seq(m.nLayers, _ => seq(n, _ => m.zeroRow));
    }

    /** The layer loop of `forward`, up to the activation handed to the classifier. */
    method Forward(token: nat, pos: nat) returns (x: Vec)
      requires Valid() && pos < seqLen
      modifies this
      ensures Valid()
      ensures x == OutOf(model, 0, old(cache), model.embed(token), pos)
      ensures cache == CacheOf(model, 0, old(cache), model.embed(token), pos)
    {
      x := model.embed(token);
      ghost var was, x0 := cache, x;
      for l := 0 to model.nLayers
        invariant Valid()
        invariant x == Through(model, 0, was, x0, pos, l)
        invariant forall i | 0 <= i < l :: cache[i] == was[i][pos := RowOf(model, 0, was, x0, pos, i)]
        invariant forall i | l <= i < model.nLayers :: cache[i] == was[i]
      {
        var (y, row) := model.block(l, cache[l][..pos], x, pos);
        cache := cache[l := cache[l][pos := row]];
        x := y;
      }
    }

    /** Feeding the tokens in order leaves, at every position, the activation `Act` describes. */
    method Feed(toks: seq<nat>) returns (acts: seq<Vec>)
      requires Valid() && |toks| <= seqLen
      requires RowsRight(model, toks, 0, cache, 0)
      modifies this
      ensures Valid()
      ensures |acts| == |toks|
      ensures forall p | 0 <= p < |toks| :: acts[p] == Act(model, toks, model.nLayers, p)
    {
      acts := [];
      for p := 0 to |toks|
        invariant Valid() && |acts| == p
        invariant RowsRight(model, toks, 0, cache, p)
        invariant forall q | 0 <= q < p :: acts[q] == Act(model, toks, model.nLayers, q)
      {
        RunRight(model, toks, 0, cache, model.embed(toks[p]), p);
        var x := Forward(toks[p], p);
        acts := acts + [x];
      }
    }
  }
}
