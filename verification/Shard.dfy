/** A worker's shard: its layers' tensors packed into segments, and its own KV cache. */
module Shard {
  import opened Geometry
  import opened Llama
  import Transfer
  import Wire

  const MAX_LAYERS := 16
  const DEFAULT_MAX_SEQ := 256

  /** The elements of one tensor of one layer. */
  datatype Tensor = Tensor(floats: seq<bv32>)

  /** `llama_block` as a function of the layer's nine tensors, the K/V rows before `pos` and the activation. */
  type Kernel = (seq<Tensor>, seq<Row>, Vec, nat) -> (Vec, Row)

  /** Slice `l` of tensor `i` in a checkpoint. */
  function SliceOf(weights: seq<bv32>, first: nat, n: nat, s: seq<nat>, l: nat, i: nat): Tensor
    requires i < |s| && l < n && StartOf(first, n, s, |s|) <= |weights|
  {
    SliceInside(first, n, s, l, i, |s|);
    var o := StartOf(first, n, s, i) + l * s[i];
    Tensor(weights[o..o + s[i]])
  }

  function Packed(s: seq<nat>, i: nat): nat
    requires i <= |s|
  {
    if i == 0 then 0 else Packed(s, i - 1) + s[i - 1]
  }

  lemma {:induction false} PackedMono(s: seq<nat>, i: nat, j: nat)
    requires i < j <= |s|
    ensures Packed(s, i) + s[i] <= Packed(s, j)
    decreases j
  {
    if i < j - 1 { PackedMono(s, i, j - 1); }
  }

  /** `want` is what lies where the code looks for a slice. */
  predicate Wanted(weights: seq<bv32>, size: nat, from: nat, want: Tensor) {
    from + size <= |weights| && want.floats == weights[from..from + size]
  }

  predicate AllWanted(weights: seq<bv32>, s: seq<nat>, from: seq<nat>, want: seq<Tensor>) {
    && |s| == |from| == |want|
    && forall i {:trigger Wanted(weights, s[i], from[i], want[i])} | 0 <= i < |s| :: Wanted(weights, s[i], from[i], want[i])
  }

  predicate PointsAt(fields: seq<nat>, s: seq<nat>) {
    |fields| <= |s| && forall k | 0 <= k < |fields| :: fields[k] == Packed(s, k)
  }

  predicate Holds(seg: seq<bv32>, s: seq<nat>, k: nat, t: Tensor)
    requires k < |s|
  {
    Packed(s, k) + s[k] <= |seg| && seg[Packed(s, k)..Packed(s, k) + s[k]] == t.floats
  }

  /** The first `n` slices are in place. */
  predicate HoldsAll(seg: seq<bv32>, s: seq<nat>, want: seq<Tensor>, n: nat)
    requires n <= |s| == |want|
  {
    forall k | 0 <= k < n :: Holds(seg, s, k, want[k])
  }

  lemma HoldsMore(before: seq<bv32>, after: seq<bv32>, s: seq<nat>, want: seq<Tensor>, i: nat)
    requires i < |s| == |want| && HoldsAll(before, s, want, i) && Holds(after, s, i, want[i])
    requires Packed(s, i) <= |before| == |after| && after[..Packed(s, i)] == before[..Packed(s, i)]
    ensures HoldsAll(after, s, want, i + 1)
  {
    forall k | 0 <= k < i ensures Holds(after, s, k, want[k]) {
      PackedMono(s, k, i);
      assert Holds(before, s, k, want[k]);
      SamePart(before, after, Packed(s, k), Packed(s, k) + s[k], Packed(s, i));
    }
  }

  lemma SamePart(before: seq<bv32>, after: seq<bv32>, a: nat, b: nat, d: nat)
    requires a <= b <= d <= |before| == |after| && after[..d] == before[..d]
    ensures after[a..b] == before[a..b]
  {
    forall i | a <= i < b ensures after[i] == before[i] {
      assert after[i] == after[..d][i] && before[i] == before[..d][i];
    }
  }

  /** Copies `src` into the segment from `dst` on. */
  method Copy(src: seq<bv32>, seg: array<bv32>, dst: nat)
    requires dst + |src| <= seg.Length
    modifies seg
    ensures seg[dst..dst + |src|] == src && seg[..dst] == old(seg[..dst])
  {
    for i := 0 to |src|
      invariant seg[..dst] == old(seg[..dst])
      invariant seg[dst..dst + i] == src[..i]
    {
      seg[dst + i] := src[i];
    }
  }

  /** The elements of a byte string; `word` makes one out of four bytes. */
  function Floats(word: (int, int, int, int) -> bv32, s: Wire.Bytes): (r: seq<bv32>)
    ensures |r| == |s| / FLOAT_BYTES
  {
    seq(|s| / FLOAT_BYTES, i requires 0 <= i < |s| / FLOAT_BYTES => word(s[4 * i], s[4 * i + 1], s[4 * i + 2], s[4 * i + 3]))
  }

  lemma FloatsSlice(word: (int, int, int, int) -> bv32, file: Wire.Bytes, e: nat, k: nat)
    requires HEADER_BYTES + (e + k) * FLOAT_BYTES <= |file|
    ensures var off := HEADER_BYTES + e * FLOAT_BYTES;
            Floats(word, file[off..off + k * FLOAT_BYTES]) == Floats(word, file[HEADER_BYTES..])[e..e + k]
  {
    var off, rest := HEADER_BYTES + e * FLOAT_BYTES, file[HEADER_BYTES..];
    var part := file[off..off + k * FLOAT_BYTES];
    var got, all := Floats(word, part), Floats(word, rest);
    forall i | 0 <= i < k ensures got[i] == all[e + i] {
      var o, o' := 4 * i, 4 * (e + i);
      assert part[o] == rest[o'] && part[o + 1] == rest[o' + 1] && part[o + 2] == rest[o' + 2] && part[o + 3] == rest[o' + 3];
    }
  }

  /** What the network and the system calls answer during one transfer. */
  datatype Trip = Trip(meta: Transfer.Meta, inbox: seq<Transfer.Recv>, sends: seq<bool>, alloc: bool, bound: bool)

  /** How four bytes make an element, and the digest of a file. */
  datatype Reader = Reader(word: (int, int, int, int) -> bv32, hash: Wire.Bytes -> Wire.Bytes)

  /** The elements of a checkpoint. */
  function Elements(rd: Reader, file: Wire.Bytes): seq<bv32> {
    if HEADER_BYTES <= |file| then Floats(rd.word, file[HEADER_BYTES..]) else []
  }

  /** All that arrives was built for the checkpoint, whose end rounds up to a chunk in 32 bits. */
  ghost predicate Served(file: Wire.Bytes, t: Trip) {
    Transfer.Genuine(t.meta, t.inbox, file) && |file| + Transfer.CHUNK - 1 < Transfer.TWO32
  }

  /** Nothing goes wrong while `len` bytes are fetched from `off` on. */
  ghost predicate Smooth(rd: Reader, file: Wire.Bytes, t: Trip, off: nat, len: nat) {
    && Served(file, t) && t.alloc && t.bound && t.meta.digest == rd.hash(file) && off + len <= |file|
    && Transfer.SentInOrder(t.meta.size, off, len, t.inbox, t.sends)
  }

  /** The cast to `uint32_t`. */
  function Cut(x: nat): (r: Wire.U32)
    ensures r <= x && (x < Transfer.TWO32 ==> r == x)
  {
    x % 0x1_0000_0000
  }

  /** `llm_fetch_range` as `shard_load` calls it, with offset and length cut to 32 bits. */
  method FetchRange(t: Trip, buffer: array<Wire.Byte>, off: nat, len: nat, rd: Reader, ghost file: Wire.Bytes) returns (ok: bool)
    requires 0 < len <= buffer.Length && off + len <= |file|
    modifies buffer
    ensures ok && Served(file, t) ==> buffer[..len] == file[off..off + len]
    ensures Smooth(rd, file, t, off, len) ==> ok
  {
    ok := Transfer.FetchWindow(t.meta, buffer, Cut(off), Cut(len), t.inbox, t.sends, t.alloc, t.bound, rd.hash, file);
  }

  /** Where element `e` of a checkpoint begins. */
  function ByteOf(e: nat): nat {
    HEADER_BYTES + e * FLOAT_BYTES
  }

  /** When the transfer of `k` elements from `e` on succeeds, they are those of the checkpoint. */
  method FetchElements(t: Trip, buffer: array<Wire.Byte>, e: nat, k: nat, rd: Reader, ghost file: Wire.Bytes)
      returns (ok: bool)
    requires 0 < k && k * FLOAT_BYTES <= buffer.Length && e + k <= |Elements(rd, file)|
    modifies buffer
    ensures ok && Served(file, t) ==> Floats(rd.word, buffer[..k * FLOAT_BYTES]) == Elements(rd, file)[e..e + k]
    ensures Smooth(rd, file, t, ByteOf(e), k * FLOAT_BYTES) ==> ok
  {
    ok := FetchRange(t, buffer, ByteOf(e), k * FLOAT_BYTES, rd, file);
    if ok && Served(file, t) {
      FloatsSlice(rd.word, file, e, k);
    }
  }

  method FetchSlice(t: Trip, size: nat, from: nat, seg: array<bv32>, dst: nat, rd: Reader,
                    ghost file: Wire.Bytes, ghost want: Tensor)
      returns (ok: bool)
    requires Wanted(Elements(rd, file), size, from, want) && 0 < size && dst + size <= seg.Length
    modifies seg
    ensures seg[..dst] == old(seg[..dst])
    ensures ok && Served(file, t) ==> seg[dst..dst + size] == want.floats
    ensures Smooth(rd, file, t, ByteOf(from), size * FLOAT_BYTES) ==> ok
  {
    var buffer := new Wire.Byte[size * FLOAT_BYTES];
    ok := FetchElements(t, buffer, from, size, rd, file);
    var got := Floats(rd.word, buffer[..]);
    assert buffer[..] == buffer[..size * FLOAT_BYTES];
    Copy(got, seg, dst);
  }

  predicate AllTrue(bits: seq<bool>) {
    forall i | 0 <= i < |bits| :: bits[i]
  }

  lemma MoreTrue(a: seq<bool>, b: seq<bool>)
    requires AllTrue(a)
    ensures AllTrue(a + b) <==> AllTrue(b)
  {
    assert forall i | 0 <= i < |b| :: b[i] == (a + b)[|a| + i];
  }

  ghost predicate AllServed(file: Wire.Bytes, trips: seq<Trip>) {
    forall i | 0 <= i < |trips| :: Served(file, trips[i])
  }

  ghost predicate SmoothAt(rd: Reader, file: Wire.Bytes, trips: seq<Trip>, s: seq<nat>, from: seq<nat>, i: nat)
    requires |trips| == |s| == |from| && i < |s|
  {
    Smooth(rd, file, trips[i], ByteOf(from[i]), s[i] * FLOAT_BYTES)
  }

  ghost predicate AllSmooth(rd: Reader, file: Wire.Bytes, trips: seq<Trip>, s: seq<nat>, from: seq<nat>)
    requires |trips| == |s| == |from|
  {
    forall i {:trigger SmoothAt(rd, file, trips, s, from, i)} | 0 <= i < |s| :: SmoothAt(rd, file, trips, s, from, i)
  }

  /** Fetching nine slices one after the other into one segment: field `i` then points at slice `i`,
      whatever was fetched after it. `fetched` is what the transfers that were started came to. */
  method PackSlices(trips: seq<Trip>, s: seq<nat>, from: seq<nat>, rd: Reader,
                    ghost file: Wire.Bytes, ghost want: seq<Tensor>)
      returns (ok: bool, seg: array<bv32>, fields: seq<nat>, fetched: seq<bool>)
    requires |trips| == |s| == |from| == |want|
    requires AllWanted(Elements(rd, file), s, from, want) && forall i | 0 <= i < |s| :: 0 < s[i]
    ensures ok <==> AllTrue(fetched)
    ensures ok ==> |fields| == |fetched| == |s| && PointsAt(fields, s) && seg.Length == Packed(s, |s|)
    ensures ok && AllServed(file, trips) ==> HoldsAll(seg[..], s, want, |s|)
    ensures AllSmooth(rd, file, trips, s, from) ==> ok
    ensures fresh(seg)
  {
    seg := new bv32[Packed(s, |s|)];
    fields, fetched := [], [];
    var dst := 0;
    for i := 0 to |s|
      invariant |fields| == |fetched| == i && dst == Packed(s, i) && AllTrue(fetched)
      invariant PointsAt(fields, s) && seg.Length == Packed(s, |s|)
      invariant AllServed(file, trips) ==> HoldsAll(seg[..], s, want, i)
    {
      fields := fields + [dst];
      var got := PackNext(trips, s, from, i, seg, dst, rd, file, want);
      MoreTrue(fetched, [got]);
      assert [got][0] == got;
      fetched := fetched + [got];
      if !got {
        return false, seg, fields, fetched;
      }
      dst := dst + s[i];
    }
    ok := true;
  }

  /** Slice `i`, into its place after the others. */
  method PackNext(trips: seq<Trip>, s: seq<nat>, from: seq<nat>, i: nat, seg: array<bv32>, dst: nat, rd: Reader,
                  ghost file: Wire.Bytes, ghost want: seq<Tensor>)
      returns (got: bool)
    requires |trips| == |s| == |from| == |want| && i < |s| && dst == Packed(s, i) && seg.Length == Packed(s, |s|)
    requires AllWanted(Elements(rd, file), s, from, want) && 0 < s[i]
    requires AllServed(file, trips) ==> HoldsAll(seg[..], s, want, i)
    modifies seg
    ensures got && AllServed(file, trips) ==> HoldsAll(seg[..], s, want, i + 1)
    ensures AllSmooth(rd, file, trips, s, from) ==> got
  {
    PackedMono(s, i, |s|);
    ghost var before := seg[..];
    assert Wanted(Elements(rd, file), s[i], from[i], want[i]);
    got := FetchSlice(trips[i], s[i], from[i], seg, dst, rd, file, want[i]);
    assert AllSmooth(rd, file, trips, s, from) ==> SmoothAt(rd, file, trips, s, from, i);
    if got && AllServed(file, trips) {
      HoldsMore(before, seg[..], s, want, i);
    }
  }

  // ----- The shard -----

  /** The nine tensors of layer `l`, as `llama_layer_at` finds them in the whole checkpoint. */
  function TensorsOf(p: Config, weights: seq<bv32>, l: nat): (t: seq<Tensor>)
    requires p.nHeads > 0 && l < p.nLayers && Base(p, |Strides(p)|) <= |weights|
    ensures |t| == |Strides(p)|
  {
    SlicesOf(weights, Vocab(p) * p.dim, p.nLayers, Strides(p), l)
  }

  function SlicesOf(weights: seq<bv32>, first: nat, n: nat, s: seq<nat>, l: nat): (t: seq<Tensor>)
    requires l < n && StartOf(first, n, s, |s|) <= |weights|
    ensures |t| == |s|
  {
    seq(|s|, i requires 0 <= i < |s| => SliceOf(weights, first, n, s, l, i))
  }

  predicate BlockAt(m: Model, kernel: Kernel, l: nat, t: seq<Tensor>, rows: seq<Row>, x: Vec, pos: nat) {
    m.block(l, rows, x, pos) == kernel(t, rows, x, pos)
  }

  /** With these tensors the kernel is the model's layer `l`. */
  ghost predicate IsLayer(m: Model, kernel: Kernel, l: nat, t: seq<Tensor>) {
    forall rows, x, pos {:trigger BlockAt(m, kernel, l, t, rows, x, pos)} :: BlockAt(m, kernel, l, t, rows, x, pos)
  }

  /** `m` is the model that the kernel and the checkpoint's weights make. */
  ghost predicate IsModel(m: Model, kernel: Kernel, p: Config, weights: seq<bv32>) {
    && p.nHeads > 0 && m.nLayers == p.nLayers && Base(p, |Strides(p)|) <= |weights|
    && forall l {:trigger TensorsOf(p, weights, l)} | 0 <= l < p.nLayers :: IsLayer(m, kernel, l, TensorsOf(p, weights, l))
  }

  ghost predicate HasLayer(m: Model, kernel: Kernel, start: nat, layers: seq<seq<Tensor>>, i: nat)
    requires i < |layers|
  {
    IsLayer(m, kernel, start + i, layers[i])
  }

  /** Layer by layer, the shard holds tensors that make it the model's layers from `start` on. */
  ghost predicate AreLayers(m: Model, kernel: Kernel, start: nat, layers: seq<seq<Tensor>>) {
    forall i {:trigger HasLayer(m, kernel, start, layers, i)} | 0 <= i < |layers| :: HasLayer(m, kernel, start, layers, i)
  }

  lemma LayerRuns(m: Model, kernel: Kernel, start: nat, layers: seq<seq<Tensor>>, i: nat, rows: seq<Row>, x: Vec, pos: nat)
    requires AreLayers(m, kernel, start, layers) && i < |layers|
    ensures kernel(layers[i], rows, x, pos) == m.block(start + i, rows, x, pos)
  {
    assert HasLayer(m, kernel, start, layers, i);
    assert BlockAt(m, kernel, start + i, layers[i], rows, x, pos);
  }

  /** Layer `start + i` takes activation `i` to the next one and row `i` of the cache to that of `goal`. */
  ghost predicate RunsTo(m: Model, start: nat, cache: Cache, pos: nat, through: seq<Vec>, goal: Cache, i: nat)
    requires i < |cache| && i + 1 < |through| && i < |goal|
  {
    && pos < |cache[i]|
    && var r := m.block(start + i, cache[i][..pos], through[i], pos);
       through[i + 1] == r.0 && goal[i] == cache[i][pos := r.1]
  }

  /** What `Through` and `CacheOf` describe is such a run. */
  lemma Activations(m: Model, start: nat, cache: Cache, x: Vec, pos: nat) returns (through: seq<Vec>)
    requires HasPosition(cache, pos)
    ensures |through| == |cache| + 1 && through[0] == x && through[|cache|] == OutOf(m, start, cache, x, pos)
    ensures forall i | 0 <= i < |cache| :: RunsTo(m, start, cache, pos, through, CacheOf(m, start, cache, x, pos), i)
  {
    through := seq(|cache| + 1, k requires 0 <= k <= |cache| => Through(m, start, cache, x, pos, k));
    forall i | 0 <= i < |cache| ensures RunsTo(m, start, cache, pos, through, CacheOf(m, start, cache, x, pos), i) {
      assert through[i + 1] == Through(m, start, cache, x, pos, i + 1);
    }
  }

  /** `malloc_run_state`: a cache of zeros. */
  function ZeroCache(layers: nat, cap: nat, zero: Row): (c: Cache)
    ensures |c| == layers && forall i | 0 <= i < layers :: |c[i]| == cap
  {
    seq(layers, _ => seq(cap, _ => zero))
  }

  function Capacity(maxSeq: int, seqLen: nat): nat {
    var want := if maxSeq <= 0 then DEFAULT_MAX_SEQ else maxSeq;
    if want > seqLen then seqLen else want
  }

  predicate Attaches(attach: int -> bool, l: int) {
    attach(l)
  }

  ghost predicate AllAttach(attach: int -> bool, l0: int, l1: int) {
    forall l {:trigger Attaches(attach, l)} | l0 <= l < l1 :: Attaches(attach, l)
  }

  predicate InRange(p: Config, l0: int, l1: int) {
    0 <= l0 < l1 <= p.nLayers && l1 - l0 <= MAX_LAYERS
  }

  /** The nine transfers of a layer. */
  function Trips(net: (int, int) -> Trip, l: int): (trips: seq<Trip>)
    ensures |trips| == TENSORS
  {
    seq(TENSORS, i => net(l, i))
  }

  function Bases(p: Config): (base: seq<nat>)
    requires p.nHeads > 0
    ensures |base| == TENSORS
  {
    seq(TENSORS, i requires 0 <= i < TENSORS => Base(p, i))
  }

  /** Where slice `l` of each tensor begins. */
  function Offsets(base: seq<nat>, stride: seq<nat>, l: nat): (from: seq<nat>)
    requires |base| == |stride|
    ensures |from| == |base|
  {
    seq(|base|, i requires 0 <= i < |base| => base[i] + l * stride[i])
  }

  ghost predicate LayerSmooth(p: Config, rd: Reader, file: Wire.Bytes, net: (int, int) -> Trip, l: nat)
    requires p.nHeads > 0
  {
    AllSmooth(rd, file, Trips(net, l), Strides(p), Offsets(Bases(p), Strides(p), l))
  }

  ghost predicate LayerServed(file: Wire.Bytes, net: (int, int) -> Trip, l: nat) {
    AllServed(file, Trips(net, l))
  }

  ghost predicate NetServed(file: Wire.Bytes, net: (int, int) -> Trip, l0: int, l1: int) {
    forall l: nat {:trigger LayerServed(file, net, l)} | l0 <= l < l1 :: LayerServed(file, net, l)
  }

  ghost predicate NetSmooth(p: Config, rd: Reader, file: Wire.Bytes, net: (int, int) -> Trip, l0: int, l1: int)
    requires p.nHeads > 0
  {
    forall l: nat {:trigger LayerSmooth(p, rd, file, net, l)} | l0 <= l < l1 :: LayerSmooth(p, rd, file, net, l)
  }

  lemma StridesPositive(p: Config)
    requires Plausible(p)
    ensures forall i | 0 <= i < TENSORS :: 0 < Strides(p)[i]
  {
    assert HeadSize(p) > 0;
    assert KvDim(p) > 0;
  }

  /** `layers` holds the tensors that the layers from `l0` on have in the whole checkpoint. */
  ghost predicate AreMapped(p: Config, weights: seq<bv32>, l0: nat, layers: seq<seq<Tensor>>) {
    && p.nHeads > 0 && l0 + |layers| <= p.nLayers && Base(p, |Strides(p)|) <= |weights|
    && forall i {:trigger IsMapped(p, weights, l0, layers, i)} | 0 <= i < |layers| :: IsMapped(p, weights, l0, layers, i)
  }

  predicate IsMapped(p: Config, weights: seq<bv32>, l0: nat, layers: seq<seq<Tensor>>, i: nat)
    requires p.nHeads > 0 && l0 + |layers| <= p.nLayers && Base(p, |Strides(p)|) <= |weights| && i < |layers|
  {
    layers[i] == TensorsOf(p, weights, l0 + i)
  }

  lemma MoreMapped(p: Config, weights: seq<bv32>, l0: nat, layers: seq<seq<Tensor>>, l: nat)
    requires AreMapped(p, weights, l0, layers) && l == l0 + |layers| < p.nLayers
    ensures AreMapped(p, weights, l0, layers + [TensorsOf(p, weights, l)])
  {
    var more := layers + [TensorsOf(p, weights, l)];
    forall i | 0 <= i < |more| ensures IsMapped(p, weights, l0, more, i) {
      assert i < |layers| ==> IsMapped(p, weights, l0, layers, i);
    }
  }

  lemma AllLayers(m: Model, kernel: Kernel, p: Config, weights: seq<bv32>, l0: nat, layers: seq<seq<Tensor>>)
    requires IsModel(m, kernel, p, weights) && AreMapped(p, weights, l0, layers)
    ensures AreLayers(m, kernel, l0, layers)
  {
    forall i | 0 <= i < |layers| ensures HasLayer(m, kernel, l0, layers, i) {
      assert IsMapped(p, weights, l0, layers, i);
    }
  }

  lemma SlicesWanted(weights: seq<bv32>, first: nat, n: nat, s: seq<nat>, base: seq<nat>, l: nat)
    requires l < n && StartOf(first, n, s, |s|) <= |weights| && |base| == |s|
    requires forall i | 0 <= i < |s| :: base[i] == StartOf(first, n, s, i)
    ensures AllWanted(weights, s, Offsets(base, s, l), SlicesOf(weights, first, n, s, l))
  {
    var want := SlicesOf(weights, first, n, s, l);
    var from := Offsets(base, s, l);
    forall i | 0 <= i < |s| ensures Wanted(weights, s[i], from[i], want[i]) {
      SliceInside(first, n, s, l, i, |s|);
    }
  }

  /** One layer of the loop in `shard_load`: the tensors found through the segment's fields are the
      wanted slices. */
  method LoadLayer(trips: seq<Trip>, s: seq<nat>, from: seq<nat>, rd: Reader,
                   ghost file: Wire.Bytes, ghost want: seq<Tensor>)
      returns (ok: bool, tensors: seq<Tensor>, fetched: seq<bool>)
    requires |trips| == |s| == |from| == |want|
    requires AllWanted(Elements(rd, file), s, from, want) && forall i | 0 <= i < |s| :: 0 < s[i]
    ensures ok <==> AllTrue(fetched)
    ensures ok ==> |fetched| == |s|
    ensures ok && AllServed(file, trips) ==> tensors == want
    ensures AllSmooth(rd, file, trips, s, from) ==> ok
  {
    var seg, fields;
    ok, seg, fields, fetched := PackSlices(trips, s, from, rd, file, want);
    tensors := [];
    if ok {
      tensors := ReadFields(seg[..], s, fields, want);
    }
  }

  /** What the nine pointers into a segment see. */
  method ReadFields(seg: seq<bv32>, s: seq<nat>, fields: seq<nat>, ghost want: seq<Tensor>) returns (tensors: seq<Tensor>)
    requires |fields| == |s| == |want| && PointsAt(fields, s) && |seg| == Packed(s, |s|)
    ensures |tensors| == |s| && (HoldsAll(seg, s, want, |s|) ==> tensors == want)
  {
    tensors := [];
    for i := 0 to |s|
      invariant |tensors| == i && (HoldsAll(seg, s, want, |s|) ==> tensors == want[..i])
    {
      PackedMono(s, i, |s|);
      assert HoldsAll(seg, s, want, |s|) ==> Holds(seg, s, i, want[i]);
      tensors := tensors + [Tensor(seg[fields[i]..fields[i] + s[i]])];
    }
  }

  /** One turn of the loop over the layers in `shard_load`. */
  method LoadNext(p: Config, base: seq<nat>, stride: seq<nat>, l: nat, net: (int, int) -> Trip, rd: Reader, ghost file: Wire.Bytes)
      returns (ok: bool, tensors: seq<Tensor>, fetched: seq<bool>)
    requires Plausible(p) && l < p.nLayers && Base(p, |Strides(p)|) <= |Elements(rd, file)|
    requires base == Bases(p) && stride == Strides(p)
    ensures (ok <==> AllTrue(fetched)) && (ok ==> |fetched| == TENSORS)
    ensures ok && LayerServed(file, net, l) ==> tensors == TensorsOf(p, Elements(rd, file), l)
    ensures LayerSmooth(p, rd, file, net, l) ==> ok
  {
    StridesPositive(p);
    SlicesWanted(Elements(rd, file), Vocab(p) * p.dim, p.nLayers, stride, base, l);
    ok, tensors, fetched := LoadLayer(Trips(net, l), stride, Offsets(base, stride, l), rd, file, TensorsOf(p, Elements(rd, file), l));
  }

  /** The loop over the layers in `shard_load`. */
  method LoadLayers(p: Config, l0: nat, l1: nat, attach: int -> bool, net: (int, int) -> Trip, rd: Reader, ghost file: Wire.Bytes)
      returns (ok: bool, layers: seq<seq<Tensor>>, fetched: seq<bool>)
    requires Plausible(p) && l0 < l1 <= p.nLayers && Base(p, |Strides(p)|) <= |Elements(rd, file)|
    ensures ok <==> AllAttach(attach, l0, l1) && AllTrue(fetched)
    ensures ok ==> |fetched| == (l1 - l0) * TENSORS && |layers| == l1 - l0
    ensures ok && NetServed(file, net, l0, l1) ==> AreMapped(p, Elements(rd, file), l0, layers)
    ensures AllAttach(attach, l0, l1) && NetSmooth(p, rd, file, net, l0, l1) ==> ok
  {
    layers, fetched := [], [];
    var base, stride := CkptGeometry(p);
    assert base == Bases(p);
    ghost var served, smooth := NetServed(file, net, l0, l1), NetSmooth(p, rd, file, net, l0, l1);
    for l := l0 to l1
      invariant |layers| == l - l0 && |fetched| == (l - l0) * TENSORS && AllTrue(fetched)
      invariant served ==> AreMapped(p, Elements(rd, file), l0, layers)
      invariant AllAttach(attach, l0, l)
    {
      if !Attaches(attach, l) {
        return false, layers, fetched;
      }
      var got, tensors, more := LoadNext(p, base, stride, l, net, rd, file);
      MoreTrue(fetched, more);
      fetched := fetched + more;
      if !got {
        return false, layers, fetched;
      }
      if served { MoreMapped(p, Elements(rd, file), l0, layers, l); }
      layers := layers + [tensors];
    }
    ok := true;
  }

  class Shard {
    const kernel: Kernel
    const zeroRow: Row
    var layerStart: nat
    var layerEnd: nat
    var seqLen: nat
    var layers: seq<seq<Tensor>>
    var cache: Cache
    var loaded: bool

    ghost predicate Valid(m: Model)
      reads this
    {
      loaded ==>
        && layerStart < layerEnd <= m.nLayers && |layers| == |cache| == layerEnd - layerStart
        && (forall i | 0 <= i < |cache| :: |cache[i]| == seqLen)
        && AreLayers(m, kernel, layerStart, layers)
    }

    constructor (k: Kernel, z: Row)
      ensures !loaded && kernel == k && zeroRow == z
    {
      kernel, zeroRow, layerStart, layerEnd, seqLen, layers, cache, loaded := k, z, 0, 0, 0, [], [], false;
    }

    /** `shard_load`. `attach(l)` says whether the segment of layer `l` can be created and attached, and
        `net(l, i)` is what the network does while its tensor `i` is fetched; `fetched` is what each of the
        transfers came to. If all that arrives was built for the checkpoint, a load that succeeds leaves the
        layers of its model. */
    method Load(p: Config, l0: int, l1: int, maxSeq: int, attach: int -> bool, net: (int, int) -> Trip, rd: Reader,
                ghost file: Wire.Bytes, ghost m: Model)
        returns (ok: bool, fetched: seq<bool>)
      requires Plausible(p) && IsModel(m, kernel, p, Elements(rd, file))
      modifies this
      ensures ok <==> InRange(p, l0, l1) && AllAttach(attach, l0, l1) && AllTrue(fetched)
      ensures ok ==> |fetched| == (l1 - l0) * TENSORS
      ensures ok ==> loaded && layerStart == l0 && layerEnd == l1
      ensures ok && NetServed(file, net, l0, l1) ==> Valid(m)
      ensures ok ==> seqLen == Capacity(maxSeq, p.seqLen) && cache == ZeroCache(l1 - l0, seqLen, zeroRow)
      ensures InRange(p, l0, l1) && AllAttach(attach, l0, l1) && NetSmooth(p, rd, file, net, l0, l1) ==> ok
      ensures !ok ==> unchanged(this) || !loaded
    {
      fetched := [];
      if l0 < 0 || l1 > p.nLayers || l0 >= l1 {
        return false, fetched;
      }
      if l1 - l0 > MAX_LAYERS {
        return false, fetched;
      }
      loaded, layers, layerStart, layerEnd := false, [], l0, l1;
      seqLen := if maxSeq <= 0 then DEFAULT_MAX_SEQ else maxSeq;
      if seqLen > p.seqLen {
        seqLen := p.seqLen;
      }
      ok, layers, fetched := LoadLayers(p, l0, l1, attach, net, rd, file);
      if !ok {
        return;
      }
      if NetServed(file, net, l0, l1) { AllLayers(m, kernel, p, Elements(rd, file), l0, layers); }
      cache := ZeroCache(l1 - l0, seqLen, zeroRow);
      loaded := true;
    }

    /** `shard_forward`. */
    method Forward(x: Vec, pos: int, ghost m: Model) returns (ok: bool, y: Vec)
      requires Valid(m)
      modifies this`cache
      ensures Valid(m)
      ensures ok <==> loaded && 0 <= pos < seqLen
      ensures ok ==> HasPosition(old(cache), pos)
      ensures ok ==> y == OutOf(m, layerStart, old(cache), x, pos) && cache == CacheOf(m, layerStart, old(cache), x, pos)
      ensures !ok ==> y == x && cache == old(cache)
    {
      y := x;
      if !loaded {
        return false, x;
      }
      if pos < 0 || pos >= seqLen {
        return false, x;
      }
      ghost var through := Activations(m, layerStart, cache, x, pos);
      y := RunLayers(x, pos, m, through, CacheOf(m, layerStart, cache, x, pos));
      ok := true;
    }

    /** The loop over the layers; `idx` is the local index the cache is addressed with. */
    method RunLayers(x: Vec, pos: nat, ghost m: Model, ghost through: seq<Vec>, ghost goal: Cache) returns (y: Vec)
      requires Valid(m) && loaded && pos < seqLen && |through| == |cache| + 1 && |goal| == |cache| && through[0] == x
      requires forall i {:trigger RunsTo(m, layerStart, cache, pos, through, goal, i)} | 0 <= i < |cache| ::
                 RunsTo(m, layerStart, cache, pos, through, goal, i)
      modifies this`cache
      ensures y == through[|goal|] && cache == goal
    {
      y := x;
      ghost var was := cache;
      for idx := 0 to layerEnd - layerStart
        invariant |cache| == |was| && y == through[idx]
        invariant forall i | 0 <= i < idx :: cache[i] == goal[i]
        invariant forall i | idx <= i < |cache| :: cache[i] == was[i]
      {
        assert RunsTo(m, layerStart, was, pos, through, goal, idx);
        LayerRuns(m, kernel, layerStart, layers, idx, cache[idx][..pos], y, pos);
        var (z, row) := kernel(layers[idx], cache[idx][..pos], y, pos);
        cache := cache[idx := cache[idx][pos := row]];
        y := z;
      }
    }

    method Release()
      modifies this
      ensures !loaded && (!old(loaded) ==> unchanged(this))
    {
      if !loaded {
        return;
      }
      cache, loaded := [], false;
    }
  }
}
